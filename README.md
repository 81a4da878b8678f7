# Vibe Compass route planner and Spotify error classifier, in Dafny

Vibe Compass builds "musical journeys". Each track of a user's playlist is a
point in (danceability, energy, valence) space. Given an origin track, a
destination track and a number of steps, the planner:

- draws a straight line of `steps + 1` evenly spaced stops between the two
  tracks' points;
- at every interior stop where some track within radius 0.15 is not yet in
  the playlist and is not the destination, picks one of them at random; a
  stop with none adds nothing, so the playlist can be shorter than
  `steps + 1`;
- ends the playlist with the destination.

The project models this planner (`vc_linalg.py`) and two pure parts of the
Spotify Web API client (`spotifyAPI.py`). The first is the classification of
a response into success or one of the client's four error kinds. The second
is the request string built from one track id or a list of ids.

Files:

- `wrappers.dfy`: `Option` and `Result`.
- `feature_space.dfy` (module `FeatureSpace`): the table of tracks, the squared
  Euclidean distance, `distance_to_all`, `song_radius`, and the id lookup that
  `uri_to_idx` performs.
- `route_planner.dfy` (module `RoutePlanner`):
  - `uri_to_idx`, `get_direct_path` and `plot_bearing` as methods with loops;
  - the functions that specify them;
  - the lemmas about those functions.

  `plot_bearing`'s loop is the method `FindRoute`. It is proved equal to
  `Walk`, a function that applies one pass of the loop per interior stop.
  The lemmas about `Walk` give the promises of `PlotBearing`.
- `spotify_api.dfy` (module `SpotifyApi`): `status_code_check`, the exception
  hierarchy and the comma-joined request string.

Modelling choices:

- A table is a sequence of tracks. A row index is the track's position in the
  sequence.
- Distances are compared squared. The source's test `norm <= radius` is
  `SqDist <= radius * radius` with `radius >= 0`. `FeatureSpace.NormWithinRadius`
  proves the two tests agree for every non-negative norm.
- `np.random.choice` is a parameter `rand: nat -> nat`. At interior stop `n`,
  the pick is entry `rand(n) % |candidates|` of the candidate list, so every
  candidate is a possible pick. Every contract holds for every `rand`.
- A uri that no row carries makes the source raise `IndexError`. The model
  returns `Err(NotFound(uri))` for the first such uri.
- `steps >= 1` is a precondition of the planner. The user interface bounds
  steps to 1..50 (`vibe_compass_app.py:51`).
- The status check returns `Passed` (the source's `True`) or `Raised(error)`.
  `error` carries the kind, the status and the description. When the body's
  `error` entry has no `message` to look up, the source raises Python's own
  `KeyError` or `TypeError` rather than a client error. The model returns
  `LookupFailed` for that case.

Three facts about the code that the model keeps:

- Duplicate track ids are not rejected; the first row carrying an id wins
  (`FirstIndexOf`).
- When origin and destination are the same track, that index sits at both
  ends of the playlist. `NoRepeats` states exactly what holds: interior
  entries never repeat and are never the destination, and all entries are
  distinct when origin and destination differ.
- Success is `200 <= status < 299`. 299 is treated as an error, as
  `range(200, 299)` excludes it.

## Model

| member | source | states |
|---|---|---|
| FeatureSpace.SqDist | vc_linalg.py:10 | the squared Euclidean distance between two points is never negative |
| FeatureSpace.NormWithinRadius | vc_linalg.py:18 | for a distance `n >= 0`, `n <= radius` holds exactly when the squared test `WithinRadius(n*n, radius)` holds, so squaring loses nothing |
| FeatureSpace.WithinRadius | vc_linalg.py:18 | the test `distances <= radius` on a squared distance: `radius >= 0` and `d2 <= radius * radius`; `NormWithinRadius` states it agrees with the norm test |
| FeatureSpace.SqMonotone | vc_linalg.py:18 | squaring preserves order on non-negative reals, one half of the radius test equivalence |
| FeatureSpace.SqStrictMonotone | vc_linalg.py:18 | squaring preserves strict order on non-negative reals, the other half of the radius test equivalence |
| FeatureSpace.SqDistSelf | vc_linalg.py:10 | a point is at distance zero from itself |
| FeatureSpace.SqDistSymmetric | vc_linalg.py:10 | the distance does not depend on the order of its two points |
| FeatureSpace.DistancesSq | vc_linalg.py:5-10 | `distance_to_all`, squared: one non-negative distance per row; `DistancesAt` states entry i is row i's distance |
| FeatureSpace.DistancesAt | vc_linalg.py:5-10 | `distance_to_all` gives one distance per track, in row order; entry i is the distance from the coordinate to row i's point, is non-negative, and is zero when row i sits at the coordinate |
| FeatureSpace.UnitCubeDiagonal | vc_linalg.py:5-10 | on a two-row table, the distances from (0,0,0) are 0 to itself and squared 3 to (1,1,1) |
| FeatureSpace.Where | vc_linalg.py:18 | `np.where(distances <= radius)[0]` returns valid indices, strictly ascending, and an index is present exactly when its entry passes the radius test |
| FeatureSpace.SongRadius | vc_linalg.py:14-20 | `song_radius` returns exactly the rows within `radius` of the coordinate, boundary included, in strictly ascending order, each a valid row index |
| FeatureSpace.FirstIndexOf | vc_linalg.py:27 | the lookup finds the first row carrying the uri; it finds none exactly when no row carries it |
| RoutePlanner.UriToIdx | vc_linalg.py:22-28 | succeeds exactly when every uri is present; on success, one index per uri in argument order, each its first row; otherwise the error names the first uri no row carries |
| RoutePlanner.StepVector | vc_linalg.py:37 | the step `(destination - origin) / steps`, one coordinate per axis; `EvenlySpaced` and `StopEnds` specify its use |
| RoutePlanner.StopAt | vc_linalg.py:41 | stop `n`, `origin + n * step`, one coordinate per axis; `StopEnds` and `EvenlySpaced` state its ends and spacing |
| RoutePlanner.DirectPath | vc_linalg.py:37-41 | the straight line has `steps + 1` stops |
| RoutePlanner.StopEnds | vc_linalg.py:37-41 | stop 0 is exactly the origin's point and stop `steps` exactly the destination's point |
| RoutePlanner.DivMulCancel | vc_linalg.py:37 | multiplying the step `x / steps` by `steps` gives `x` back exactly |
| RoutePlanner.EvenlySpaced | vc_linalg.py:37-41 | consecutive stops differ, on every axis, by `(destination - origin) / steps` |
| RoutePlanner.GetDirectPath | vc_linalg.py:30-43 | the buffer filled row by row equals the straight line: `steps + 1` rows of three coordinates, with the exact origin and destination at the ends |
| RoutePlanner.RadiusChoices | vc_linalg.py:59 | `song_radius(df, stop)` taken at every stop of the line, radius a parameter; `RadiusChoicesNear` states each entry is exactly the in-radius rows of its stop |
| RoutePlanner.RadiusChoicesNear | vc_linalg.py:59 | the candidates at each stop are exactly the tracks within the radius of that stop |
| RoutePlanner.Without | vc_linalg.py:63-65 | `list(set_b - set_a)`, never longer than the choices; `WithoutMembers` states its members exactly |
| RoutePlanner.Pick | vc_linalg.py:67 | `np.random.choice` driven by a draw: the picked track is one of the candidates |
| RoutePlanner.Step | vc_linalg.py:59-68 | one pass of the loop at a stop; `StepExtends` and `StepUnchanged` specify it |
| RoutePlanner.WithoutMembers | vc_linalg.py:63-65 | the set difference keeps exactly the choices that are neither in the playlist nor the destination |
| RoutePlanner.StepExtends | vc_linalg.py:62-68 | one pass of the loop either leaves the playlist as it is or appends one track that was offered at this stop, is not yet in the playlist and is not the destination |
| RoutePlanner.StepUnchanged | vc_linalg.py:66 | a pass appends nothing exactly when every offered track is already in the playlist or is the destination |
| RoutePlanner.StepAt | vc_linalg.py:59-68 | the pass of the loop at stop `n`: `Step` with that stop's choices and the draw `rand(n)`; the one-pass function `FindRoute` and `PlotBearing` are stated in; `StepAtSteps` specifies it |
| RoutePlanner.StepAtSteps | vc_linalg.py:58-68 | the pass the loop makes at every interior stop, with any random draw, extends the playlist as `StepExtends` says |
| RoutePlanner.Walk | vc_linalg.py:56-68 | the playlist after the first k interior stops, starting from `[origin]`; `FindRoute` is proved equal to it, and `WalkLength`, `WalkHead`, `WalkEntries` and `WalkChosenAt` specify it |
| RoutePlanner.PickedStops | vc_linalg.py:58-68 | the interior stops that added a track, in visiting order; `WalkLength`, `PickedStopsAscending` and `WalkChosenAt` specify it |
| RoutePlanner.WalkLength | vc_linalg.py:58-68 | after k interior stops the playlist has one entry more than the number of stops that added one, and at most k + 1 entries |
| RoutePlanner.WalkHead | vc_linalg.py:56 | the playlist always starts with the origin |
| RoutePlanner.PickedStopsAscending | vc_linalg.py:58 | the stops that added a track are interior stops, visited in increasing order |
| RoutePlanner.WalkEntries | vc_linalg.py:58-68 | every entry is a valid row index; no entry after the first is the destination; no entry repeats |
| RoutePlanner.WalkChosenAt | vc_linalg.py:59-68 | the j-th added track is one of the choices at the stop that added it |
| RoutePlanner.NoChoicesKeepsOrigin | vc_linalg.py:63-66 | when no stop offers anything but the origin and the destination, the walk is just `[origin]` |
| RoutePlanner.NoNearbyTracksGivesDirectRoute | vc_linalg.py:58-70 | when no other track lies within the radius of any interior stop, the playlist is `[origin, destination]` |
| RoutePlanner.FindRoute | vc_linalg.py:56-68 | the loop over the interior stops produces exactly `Walk` of the one-pass function, for the same random draws |
| RoutePlanner.PlaylistEntries | vc_linalg.py:56-71 | the closed playlist has at least 2 and at most `steps + 1` entries; it starts at the origin and ends at the destination; with `steps = 1` it is `[origin, destination]`; every entry is a valid row; no interior entry repeats or is the destination |
| RoutePlanner.CloseEntries | vc_linalg.py:70 | appending the destination carries the walk's bounds, row validity and distinctness over to the playlist |
| RoutePlanner.PlaylistStops | vc_linalg.py:58-68 | interior entry j was chosen within the radius of an interior stop, and those stops increase along the playlist |
| RoutePlanner.CloseStops | vc_linalg.py:70 | appending the destination keeps each interior entry tied to the stop it was chosen at |
| RoutePlanner.AppendStop | vc_linalg.py:58 | the list of stops that added a track stays within the stops visited so far and ascending |
| RoutePlanner.AppendAscending | vc_linalg.py:58 | appending a value larger than every entry keeps a sequence ascending |
| RoutePlanner.AppendDistinct | vc_linalg.py:68 | appending a value not yet present keeps a sequence free of repeats |
| RoutePlanner.PlotBearing | vc_linalg.py:45-73 | fails exactly when a uri is missing, naming the origin first; otherwise the stops are the straight line with exact ends; the playlist starts at the origin and ends at the destination, with 2 to `steps + 1` entries; it is `[origin, destination]` for `steps = 1`; its entries are valid rows; no interior entry repeats or is the destination; each interior entry lies within 0.15 of its own interior stop, in stop order |
| SpotifyApi.IsSuccess | spotifyAPI.py:120 | `status_code in range(200, 299)`, i.e. 200..298; `Status299IsAnError` and `StatusCodeCheck` use it |
| SpotifyApi.Parent | spotifyAPI.py:147-165 | the declared base class of each kind: `Exception` for `InvalidRequest`, `InvalidRequest` for the other three; `EveryKindIsAnInvalidRequest` specifies it |
| SpotifyApi.IsA | spotifyAPI.py:147-165 | whether a handler for one kind catches another (`isinstance`); `EveryKindIsAnInvalidRequest` and `SpecificHandlerCatchesOnlyItsKind` specify it |
| SpotifyApi.HasMessage | spotifyAPI.py:130 | whether `response_json["error"]["message"]` succeeds: the `error` value is an object holding `message`; `StatusCodeCheck` states that the lookup fails exactly when it does not |
| SpotifyApi.KindOf | spotifyAPI.py:136-144 | a specific kind is raised exactly when the message equals that kind's string; any other message is a plain `InvalidRequest` |
| SpotifyApi.KindOfSpecificMessage | spotifyAPI.py:136-141 | each specific kind's own message selects that kind |
| SpotifyApi.Classify | spotifyAPI.py:136-144 | the raised error carries the status code and the message as its description |
| SpotifyApi.StatusCodeCheck | spotifyAPI.py:118-144 | passes exactly for statuses 200..298; every raised error carries the status and has the kind its description selects; `error_description` wins over `error.message`; with neither key the result is `InvalidRequest` with the unexpected-format text; the lookup fails exactly when `error` holds no `message`; that every raised error is an `InvalidRequest` is the hierarchy fact `EveryKindIsAnInvalidRequest` |
| SpotifyApi.EveryKindIsAnInvalidRequest | spotifyAPI.py:147-165 | a handler for `InvalidRequest` catches all four kinds |
| SpotifyApi.SpecificHandlerCatchesOnlyItsKind | spotifyAPI.py:155-165 | a handler for a specific kind catches that kind and no other |
| SpotifyApi.SuccessIgnoresBody | spotifyAPI.py:120-122 | a success status passes whatever the body holds |
| SpotifyApi.Status299IsAnError | spotifyAPI.py:120 | status 299 does not pass |
| SpotifyApi.DescriptionTakesPrecedence | spotifyAPI.py:127-130 | once `error_description` is present, changing the `error` entry changes nothing |
| SpotifyApi.RevokedTokenRaisesAccessRevoked | spotifyAPI.py:136-137 | a revoked refresh token raises `AccessRevoked` with its status and message |
| SpotifyApi.Join | spotifyAPI.py:68 | the joined string holds a comma exactly when there are two or more ids or some id holds one |
| SpotifyApi.Split | spotifyAPI.py:109-112 | the source never splits; this is Python's `str.split`, the reverse operation against which the join's round trip is proved, and it always gives at least one piece |
| SpotifyApi.SplitPlain | spotifyAPI.py:68 | the source never splits; for the round-trip proof of the join, a string without a comma splits into itself |
| SpotifyApi.SplitAtFirst | spotifyAPI.py:68 | the source never splits; for the round-trip proof of the join, splitting at the first comma peels off the piece before it |
| SpotifyApi.SplitJoin | spotifyAPI.py:68 | splitting the joined ids at commas gives the ids back, when there is at least one id and none holds a comma |
| SpotifyApi.RequestString | spotifyAPI.py:107-112 | a single id is sent unchanged; an empty list gives the empty string; comma-free ids give a string with a comma exactly when there are two or more |
| SpotifyApi.SingletonListIsTheId | spotifyAPI.py:65-70 | a one-id list asks for the same thing as that id on its own |
| SpotifyApi.RequestStringRoundTrip | spotifyAPI.py:107-112 | the ids of a list can be read back from its request string |

## Left out

- Floating point: coordinates, steps and distances are reals. The rounding of float64 interpolation and of `np.linalg.norm` is not modelled.
- Square root: the model compares squared distances with the squared radius. `NormWithinRadius` ties the two tests together.
- Randomness: `np.random.choice` is an injected draw `rand(n) % |candidates|`. Any candidate can be picked, but the uniform distribution is not modelled.
- Candidate order: `list(set_b - set_a)` has an unspecified order in Python. The model keeps ascending row order, which changes only which draw picks which track.
- The conversion of entries from numpy int64 to Python int (line 71) is not modelled. Indices are unbounded naturals.
- `steps < 1` is excluded by precondition; the user interface bounds steps to 1..50. The source's behaviour there is not modelled. With `steps == 0`, line 37 divides by zero with only a numpy warning, and the function returns a one-row NaN path and `[origin, destination]`. With `steps == -1` it returns an empty path and `[origin, destination]`. With `steps <= -2`, `np.zeros` at line 39 raises `ValueError`.
- The docstring of `plot_bearing` (line 47) promises a plot, but the function draws nothing; it only returns the stops and the playlist, which is all the model covers.
- Table mechanics: the column slice and the pandas DataFrame are replaced by a sequence of tracks with exactly three features.
- The status check's body is a JSON object. A body that does not decode, or decodes to a non-object, is not modelled.
- The `print` of an unexpected body is not modelled.
- The text that `InvalidRequest.__init__` passes to `Exception` is not modelled. It formats the status and the description into a string; the model keeps both attributes.
- A list of track ids with a non-string entry, such as a `None` id: `",".join` then raises `TypeError` (spotifyAPI.py:68, 110). `IdList` holds only strings, so the model does not capture this error.
- Track ids other than a list or a string: the source then fails with an unbound `requeststring`, and the model's `TrackIds` type admits only those two forms.
- HTTP requests, token exchange, the `reauthenticate` clock check and the mutable state of `Client` are not modelled. They are network and clock I/O.
- The Django views, the OAuth flow and the Dash user interface are not part of this model.
