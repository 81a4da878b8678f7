/**
 * The pure parts of the Spotify Web API client: the classification of a
 * response into success or one of the client's error kinds
 * (`Client.status_code_check` and its exception classes), and the request
 * string built from one track id or a list of them.
 *
 * A response is its status code and its decoded JSON body. The body of an
 * error response is a JSON object, so it is a map from keys to JSON values.
 */
module SpotifyApi {

  /** A decoded JSON value. */
  datatype Json =
    | JNull
    | JBool(b: bool)
    | JNumber(n: real)
    | JString(s: string)
    | JArray(items: seq<Json>)
    | JObject(fields: map<string, Json>)

  /**
   * The client's exception classes. `InvalidRequest` is the base class; the
   * other three are its direct subclasses.
   */
  datatype ErrorKind = InvalidRequest | AccessRevoked | InvalidAuthorisation | NoDevice

  /** A base class: Python's own `Exception`, or one of the client's kinds. */
  datatype Superclass = Exception | Kind(kind: ErrorKind)

  /** The class each kind is declared to extend. */
  function Parent(kind: ErrorKind): Superclass
  {
    if kind == InvalidRequest then Exception else Kind(InvalidRequest)
  }

  /** `isinstance`: an error of `kind` is caught by a handler for `handler`. */
  predicate IsA(kind: ErrorKind, handler: ErrorKind)
  {
    kind == handler || Parent(kind) == Kind(handler)
  }

  /**
   * The exception value: its class, and the two attributes every one of the
   * classes stores, the status code and the error description.
   */
  datatype SpotifyError = SpotifyError(kind: ErrorKind, statusCode: int, errorDescription: Json)

  /**
   * How a call of the check ends: it returns `True`, raises one of the
   * client's errors, or fails while looking up `error.message` (a `KeyError`
   * or `TypeError` that is not one of the client's errors).
   */
  datatype CheckResult = Passed | Raised(error: SpotifyError) | LookupFailed

  const RefreshTokenRevoked: string := "Refresh token revoked"
  const InvalidAuthorizationCode: string := "Invalid authorization code"
  const NoActiveDevice: string := "Player command failed: No active device found"

  /** Description given when the body has neither known error key. */
  const UnexpectedFormat: string := "Unexpected JSON format. JSON printed above."

  /** `status_code in range(200, 299)`: the upper bound 299 itself is not a success. */
  predicate IsSuccess(status: int)
  {
    200 <= status < 299
  }

  /** The exact message that selects each specific kind. */
  function SpecificMessage(kind: ErrorKind): string
    requires kind != InvalidRequest
  {
    match kind
    case AccessRevoked => RefreshTokenRevoked
    case InvalidAuthorisation => InvalidAuthorizationCode
    case NoDevice => NoActiveDevice
  }

  /**
   * The kind raised for an error message: a specific kind exactly when the
   * message is that kind's string, word for word; any other value, string or
   * not, is a plain `InvalidRequest`.
   */
  function KindOf(msg: Json): (kind: ErrorKind)
    ensures kind != InvalidRequest ==> msg == JString(SpecificMessage(kind))
    ensures forall k :: k != InvalidRequest && msg == JString(SpecificMessage(k)) ==> kind == k
  {
    if msg == JString(RefreshTokenRevoked) then AccessRevoked
    else if msg == JString(InvalidAuthorizationCode) then InvalidAuthorisation
    else if msg == JString(NoActiveDevice) then NoDevice
    else InvalidRequest
  }

  /** `body["error"]["message"]` can be looked up: the value is an object with that key. */
  predicate HasMessage(error: Json)
  {
    error.JObject? && "message" in error.fields
  }

  /**
   * `status_code_check`: a success status passes without looking at the body.
   * Otherwise a top-level `error_description` is the message; failing that,
   * `error.message` is; failing both, the result is a plain `InvalidRequest`
   * whose description says the format was unexpected. The message then
   * selects the kind.
   */
  function StatusCodeCheck(status: int, body: map<string, Json>): (r: CheckResult)
    ensures r.Passed? <==> IsSuccess(status)
    ensures r.Raised? ==> r.error.statusCode == status
    // restates the hierarchy (`EveryKindIsAnInvalidRequest`) for the error raised here
    ensures r.Raised? ==> IsA(r.error.kind, InvalidRequest)
    ensures r.Raised? ==> r.error.kind == KindOf(r.error.errorDescription)
    ensures r.LookupFailed? <==>
              !IsSuccess(status) && "error_description" !in body && "error" in body
              && !HasMessage(body["error"])
    ensures !IsSuccess(status) && "error_description" in body ==>
              r.Raised? && r.error.errorDescription == body["error_description"]
    ensures !IsSuccess(status) && "error_description" !in body && "error" in body
              && HasMessage(body["error"]) ==>
              r.Raised? && r.error.errorDescription == body["error"].fields["message"]
    ensures !IsSuccess(status) && "error_description" !in body && "error" !in body ==>
              r == Raised(SpotifyError(InvalidRequest, status, JString(UnexpectedFormat)))
  {
    if IsSuccess(status) then Passed
    else if "error_description" in body then Classify(status, body["error_description"])
    else if "error" in body then
      if HasMessage(body["error"]) then Classify(status, body["error"].fields["message"])
      else LookupFailed
    else Raised(SpotifyError(InvalidRequest, status, JString(UnexpectedFormat)))
  }

  /** The `if error_msg == ...` chain: raise the kind the message selects. */
  function Classify(status: int, msg: Json): (r: CheckResult)
    ensures r.Raised? && r.error.statusCode == status && r.error.errorDescription == msg
  {
    Raised(SpotifyError(KindOf(msg), status, msg))
  }

  /** Each specific kind is selected by its own message and by no other. */
  lemma KindOfSpecificMessage(kind: ErrorKind)
    requires kind != InvalidRequest
    ensures KindOf(JString(SpecificMessage(kind))) == kind
  {
  }

  /** A handler for `InvalidRequest` catches every error the client raises. */
  lemma EveryKindIsAnInvalidRequest(kind: ErrorKind)
    ensures IsA(kind, InvalidRequest)
  {
  }

  /** A handler for one of the specific kinds catches that kind only. */
  lemma SpecificHandlerCatchesOnlyItsKind(kind: ErrorKind, handler: ErrorKind)
    requires handler != InvalidRequest
    ensures IsA(kind, handler) <==> kind == handler
  {
  }

  /** A success status passes whatever the body holds. */
  lemma SuccessIgnoresBody(status: int, body1: map<string, Json>, body2: map<string, Json>)
    requires IsSuccess(status)
    ensures StatusCodeCheck(status, body1) == StatusCodeCheck(status, body2) == Passed
  {
  }

  /** 299 is outside `range(200, 299)`, so it is handled as an error. */
  lemma Status299IsAnError(body: map<string, Json>)
    ensures StatusCodeCheck(299, body) != Passed
  {
  }

  /** Once `error_description` is present, the `error` entry plays no part. */
  lemma DescriptionTakesPrecedence(status: int, body: map<string, Json>, error: Json)
    requires "error_description" in body
    ensures StatusCodeCheck(status, body["error" := error]) == StatusCodeCheck(status, body)
  {
  }

  /** Every error raised for the revoked-token message is `AccessRevoked`, with its status. */
  lemma RevokedTokenRaisesAccessRevoked(status: int, body: map<string, Json>)
    requires !IsSuccess(status)
    requires "error_description" in body && body["error_description"] == JString(RefreshTokenRevoked)
    ensures StatusCodeCheck(status, body) ==
            Raised(SpotifyError(AccessRevoked, status, JString(RefreshTokenRevoked)))
  {
  }

  /** The track ids given to `get_track` and `get_parameters`: a list, or one id. */
  datatype TrackIds = IdList(ids: seq<string>) | SingleId(id: string)

  /** `sep.join(ids)`: the ids in order, with `sep` between neighbours. */
  function Join(ids: seq<string>, sep: char): (s: string)
    ensures sep in s <==> |ids| >= 2 || exists k :: 0 <= k < |ids| && sep in ids[k]
  {
    if |ids| == 0 then ""
    else if |ids| == 1 then ids[0]
    else
      var rest := Join(ids[1..], sep);
      ids[0] + [sep] + rest
  }

  /** `s.split(sep)`: the pieces between separators; the empty string is one empty piece. */
  function Split(s: string, sep: char): (parts: seq<string>)
    ensures |parts| >= 1
  {
    if |s| == 0 then [""]
    else
      var rest := Split(s[1..], sep);
      if s[0] == sep then [""] + rest
      else [[s[0]] + rest[0]] + rest[1..]
  }

  /** A string with no separator splits into itself. */
  lemma {:induction false} SplitPlain(a: string, sep: char)
    requires sep !in a
    ensures Split(a, sep) == [a]
  {
    if |a| > 0 {
      SplitPlain(a[1..], sep);
      assert [a[0]] + a[1..] == a;
    }
  }

  /** Splitting at the first separator peels off the piece before it. */
  lemma {:induction false} SplitAtFirst(a: string, sep: char, rest: string)
    requires sep !in a
    ensures Split(a + [sep] + rest, sep) == [a] + Split(rest, sep)
  {
    var s := a + [sep] + rest;
    if |a| == 0 {
      assert s[1..] == rest;
    } else {
      assert s[1..] == a[1..] + [sep] + rest;
      SplitAtFirst(a[1..], sep, rest);
      assert [a[0]] + a[1..] == a;
    }
  }

  /**
   * The request string keeps the list: splitting the joined ids at commas
   * gives the ids back, provided there is at least one and none holds a comma.
   */
  lemma {:induction false} SplitJoin(ids: seq<string>, sep: char)
    requires |ids| >= 1
    requires forall k :: 0 <= k < |ids| ==> sep !in ids[k]
    ensures Split(Join(ids, sep), sep) == ids
  {
    if |ids| == 1 {
      SplitPlain(ids[0], sep);
    } else {
      SplitJoin(ids[1..], sep);
      SplitAtFirst(ids[0], sep, Join(ids[1..], sep));
      assert [ids[0]] + ids[1..] == ids;
    }
  }

  /**
   * The id path or query value sent to the API: a list is joined with commas,
   * a single id is used as it is.
   */
  function RequestString(t: TrackIds): (s: string)
    ensures t.SingleId? ==> s == t.id
    ensures t.IdList? && t.ids == [] ==> s == ""
    ensures t.IdList? && (forall k :: 0 <= k < |t.ids| ==> ',' !in t.ids[k]) ==>
              (',' in s <==> |t.ids| >= 2)
  {
    match t
    case IdList(ids) => Join(ids, ',')
    case SingleId(id) => id
  }

  /** A one-element list asks for the same thing as that id on its own. */
  lemma SingletonListIsTheId(id: string)
    ensures RequestString(IdList([id])) == RequestString(SingleId(id))
  {
  }

  /** Ids without commas can be read back from the request string. */
  lemma RequestStringRoundTrip(ids: seq<string>)
    requires |ids| >= 1
    requires forall k :: 0 <= k < |ids| ==> ',' !in ids[k]
    ensures Split(RequestString(IdList(ids)), ',') == ids
  {
    SplitJoin(ids, ',');
  }
}
