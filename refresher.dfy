/**
 * The refresh loop of src/refresher/main.py. One pass of its `while True`
 * body reads the table, picks the first row, sends an OAuth 2.0
 * refresh-token grant (section 6 of RFC 6749) for that row's refresh token,
 * and writes the new token pair back unless the endpoint answered 400.
 * The HTTP exchange is an input: the response the endpoint gives to the
 * request the cycle sends.
 */
module Refresher {
  import opened Wrappers
  import opened Models
  import opened DarUtils

  const TokenEndpoint: string := "https://www.deviantart.com/oauth2/token"

  /** The response body after `jsonParser.parse`: unparsable, or a JSON object. */
  datatype Body = Malformed | Object(fields: map<string, string>)

  /** What came back from the token endpoint, if anything did. */
  datatype Response = Unreachable | Response(status: int, body: Body)

  /** A GET to `url` with the query parameters `params`, in the order they are sent. */
  datatype Request = Request(url: string, params: seq<(string, string)>)

  /** The exception that ends the loop; only `NoItemsError` is caught. */
  datatype Crash =
    | TransportFailed          // the HTTP client raised
    | UnparsableBody           // the JSON parser raised
    | MissingKey(key: string)  // `dataMain[key]` raised `KeyError`
    | StoreFailed(error: StoreError)

  /**
   * How one pass ends: `NoItemsError` caught (logged as a warning), a 400
   * answer (logged as a warning), the tokens written (logged as info), or an
   * exception that escapes the loop.
   */
  datatype Outcome = NoItems | Rejected | Updated | Crashed(cause: Crash)

  /** One pass: how it ended, the request it sent, and the table afterwards. */
  datatype Step = Step(outcome: Outcome, request: Option<Request>, rows: seq<DARData>)

  /** The query parameters of the refresh-token grant, in the order they are sent. */
  function GrantParams(clientId: string, clientSecret: string, refreshToken: string): seq<(string, string)> {
    [("client_id", clientId), ("client_secret", clientSecret),
     ("grant_type", "refresh_token"), ("refresh_token", refreshToken)]
  }

  /** The grant carries exactly four distinct parameters, with grant type `refresh_token`. */
  lemma GrantParamsExactlyFour(clientId: string, clientSecret: string, refreshToken: string)
    ensures |GrantParams(clientId, clientSecret, refreshToken)| == 4
    ensures Dict(GrantParams(clientId, clientSecret, refreshToken))
            == map["client_id" := clientId, "client_secret" := clientSecret,
                   "grant_type" := "refresh_token", "refresh_token" := refreshToken]
  {
    var p1, p2, p3, p4 := ("client_id", clientId), ("client_secret", clientSecret),
                          ("grant_type", "refresh_token"), ("refresh_token", refreshToken);
    DictAppend([], p1);
    DictAppend([p1], p2);
    assert [p1] + [p2] == [p1, p2];
    DictAppend([p1, p2], p3);
    assert [p1, p2] + [p3] == [p1, p2, p3];
    DictAppend([p1, p2, p3], p4);
    assert [p1, p2, p3] + [p4] == [p1, p2, p3, p4] == GrantParams(clientId, clientSecret, refreshToken);
  }

  /** `[dict(item)['uuid'] for item in checkForItem][0]`: the key of the first row read. */
  function Candidate(rows: seq<DARData>): (u: string)
    requires rows != []
    ensures u == rows[0].uuid
  {
    DictOfRow(rows[0]);
    Dict(Iter(rows[0]))["uuid"]
  }

  /** One pass of the loop body, on table value `rows`. */
  function CycleStep(rows: seq<DARData>, clientId: string, clientSecret: string, response: Response): (s: Step)
    requires ValidTable(rows)
    ensures ValidTable(s.rows)
    ensures rows == [] ==> s == Step(NoItems, None, rows)
    ensures s.request.None? <==> rows == []
    ensures s.outcome != Updated ==> s.rows == rows
  {
    if |rows| == 0 then Step(NoItems, None, rows)
    else
      var firstUUID := Candidate(rows);
      assert rows[0] in SelectWhereUuid(rows, firstUUID);
      var refreshTokenList := RefreshTokensWhereUuid(rows, firstUUID);
      var request := Some(Request(TokenEndpoint, GrantParams(clientId, clientSecret, refreshTokenList[0])));
      match response
      case Unreachable => Step(Crashed(TransportFailed), request, rows)
      case Response(status, body) =>
        match body
        case Malformed => Step(Crashed(UnparsableBody), request, rows)
        case Object(dataMain) =>
          if status == 400 then Step(Rejected, request, rows)
          else if "access_token" !in dataMain then Step(Crashed(MissingKey("access_token")), request, rows)
          else if "refresh_token" !in dataMain then Step(Crashed(MissingKey("refresh_token")), request, rows)
          else
            var accessToken, refreshToken := dataMain["access_token"], dataMain["refresh_token"];
            var res := UpdateResult(firstUUID, accessToken, refreshToken);
            if res.Failed? then Step(Crashed(StoreFailed(res.error)), request, rows)
            else
              UpdateKeepsValid(rows, firstUUID, accessToken, refreshToken);
              Step(Updated, request, UpdateWhereUuid(rows, firstUUID, accessToken, refreshToken))
  }

  /** The body of the `while True` loop in `main()`, run against the store. */
  method Cycle(darUtils: RinDARUtils, clientId: string, clientSecret: string, response: Response)
    returns (outcome: Outcome, request: Option<Request>)
    requires darUtils.Valid()
    modifies darUtils
    ensures darUtils.Valid()
    ensures var s := CycleStep(old(darUtils.rows), clientId, clientSecret, response);
            outcome == s.outcome && request == s.request && darUtils.rows == s.rows
  {
    var checkForItem := darUtils.GetAllDARData();
    if |checkForItem| == 0 {
      return NoItems, None;
    }
    var firstUUID := Candidate(checkForItem);
    var refreshTokenList := darUtils.GetRefreshTokenViaUUID(firstUUID);
    assert refreshTokenList == RefreshTokensWhereUuid(darUtils.rows, firstUUID);
    request := Some(Request(TokenEndpoint, GrantParams(clientId, clientSecret, refreshTokenList[0])));
    match response
    case Unreachable =>
      outcome := Crashed(TransportFailed);
    case Response(status, body) =>
      match body
      case Malformed =>
        outcome := Crashed(UnparsableBody);
      case Object(dataMain) =>
        if status == 400 {
          outcome := Rejected;
        } else if "access_token" !in dataMain {
          outcome := Crashed(MissingKey("access_token"));
        } else if "refresh_token" !in dataMain {
          outcome := Crashed(MissingKey("refresh_token"));
        } else {
          var res := darUtils.UpdateDARData(firstUUID, dataMain["access_token"], dataMain["refresh_token"]);
          outcome := if res.Written? then Updated else Crashed(StoreFailed(res.error));
        }
  }

  /** When the table has rows, the request asks to refresh the first row's stored refresh token. */
  lemma CycleRequestsFirstRowToken(rows: seq<DARData>, clientId: string, clientSecret: string, response: Response)
    requires ValidTable(rows) && rows != []
    ensures CycleStep(rows, clientId, clientSecret, response).request
            == Some(Request(TokenEndpoint, GrantParams(clientId, clientSecret, rows[0].refreshToken)))
  {
    SelectUnique(rows, 0);
  }

  /** On a table with rows and a parsed body, the pass is rejected exactly when the status is 400. */
  lemma CycleRejectedIff(rows: seq<DARData>, clientId: string, clientSecret: string, response: Response)
    requires ValidTable(rows) && rows != []
    ensures CycleStep(rows, clientId, clientSecret, response).outcome == Rejected
            <==> response.Response? && response.body.Object? && response.status == 400
  {
  }

  /**
   * Any status other than 400 is taken as success: a body with both tokens,
   * each fitting its column and free of U+0000, is written, a 500 answer included.
   */
  lemma CycleNon400Updates(rows: seq<DARData>, clientId: string, clientSecret: string,
                           status: int, fields: map<string, string>)
    requires ValidTable(rows) && rows != [] && status != 400
    requires "access_token" in fields && |fields["access_token"]| <= MaxColumnLength
    requires "refresh_token" in fields && |fields["refresh_token"]| <= MaxColumnLength
    requires Encodable(fields["access_token"]) && Encodable(fields["refresh_token"])
    ensures CycleStep(rows, clientId, clientSecret, Response(status, Object(fields))).outcome == Updated
  {
  }

  /**
   * A pass that writes replaces both tokens of the first row, from the body
   * of a non-400 answer, and leaves every other row as it was.
   */
  lemma CycleUpdatesOnlyCandidate(rows: seq<DARData>, clientId: string, clientSecret: string, response: Response)
    requires ValidTable(rows)
    requires CycleStep(rows, clientId, clientSecret, response).outcome == Updated
    ensures rows != [] && response.Response? && response.status != 400 && response.body.Object?
    ensures var f, after := response.body.fields, CycleStep(rows, clientId, clientSecret, response).rows;
            && "access_token" in f && "refresh_token" in f
            && |after| == |rows|
            && after[0] == DARData(rows[0].uuid, f["access_token"], f["refresh_token"])
            && forall i :: 1 <= i < |rows| ==> after[i] == rows[i]
  {
    var after := CycleStep(rows, clientId, clientSecret, response).rows;
    assert forall i :: 1 <= i < |rows| ==> rows[i].uuid != rows[0].uuid;
  }

  /** A pass crashes exactly on a transport error, an unparsable body, or a non-400 body it cannot store. */
  lemma CycleCrashesIff(rows: seq<DARData>, clientId: string, clientSecret: string, response: Response)
    requires ValidTable(rows) && rows != []
    ensures CycleStep(rows, clientId, clientSecret, response).outcome.Crashed?
            <==> || response.Unreachable?
                 || response.body.Malformed?
                 || (response.status != 400 &&
                     var f := response.body.fields;
                     || "access_token" !in f || "refresh_token" !in f
                     || |f["access_token"]| > MaxColumnLength || |f["refresh_token"]| > MaxColumnLength
                     || !Encodable(f["access_token"]) || !Encodable(f["refresh_token"]))
  {
    assert HasUuid(rows, rows[0].uuid);
  }

  /** After a 400, the next pass sends the very same request again. */
  lemma RejectedThenSameRequest(rows: seq<DARData>, clientId: string, clientSecret: string, first: Response, next: Response)
    requires ValidTable(rows)
    requires CycleStep(rows, clientId, clientSecret, first).outcome == Rejected
    ensures var s := CycleStep(rows, clientId, clientSecret, first);
            CycleStep(s.rows, clientId, clientSecret, next).request == s.request
  {
    CycleRequestsFirstRowToken(rows, clientId, clientSecret, first);
    CycleRequestsFirstRowToken(rows, clientId, clientSecret, next);
  }

  /** After a write, the next pass spends the refresh token that was just stored. */
  lemma UpdatedThenNewToken(rows: seq<DARData>, clientId: string, clientSecret: string, first: Response, next: Response)
    requires ValidTable(rows)
    requires CycleStep(rows, clientId, clientSecret, first).outcome == Updated
    ensures CycleStep(CycleStep(rows, clientId, clientSecret, first).rows, clientId, clientSecret, next).request
            == Some(Request(TokenEndpoint, GrantParams(clientId, clientSecret, first.body.fields["refresh_token"])))
  {
    CycleUpdatesOnlyCandidate(rows, clientId, clientSecret, first);
    var after := CycleStep(rows, clientId, clientSecret, first).rows;
    CycleRequestsFirstRowToken(after, clientId, clientSecret, next);
  }

  /** Several passes: how each ended, the requests sent, and the table at the end. */
  datatype Trace = Trace(outcomes: seq<Outcome>, requests: seq<Request>, rows: seq<DARData>)

  /**
   * The `while True` loop fed with one response per pass (a pass that sends
   * nothing ignores its response). Only `NoItemsError` is caught, so the
   * loop stops at the first crash and otherwise runs through all passes.
   */
  function RunCycles(rows: seq<DARData>, clientId: string, clientSecret: string, responses: seq<Response>): (t: Trace)
    requires ValidTable(rows)
    ensures ValidTable(t.rows)
    ensures |t.outcomes| <= |responses| && |t.requests| <= |t.outcomes|
    ensures forall k :: 0 <= k < |t.outcomes| - 1 ==> !t.outcomes[k].Crashed?
    ensures |t.outcomes| < |responses| ==> t.outcomes != [] && t.outcomes[|t.outcomes| - 1].Crashed?
    decreases |responses|
  {
    if responses == [] then Trace([], [], rows)
    else
      var s := CycleStep(rows, clientId, clientSecret, responses[0]);
      var sent := if s.request.Some? then [s.request.value] else [];
      if s.outcome.Crashed? then Trace([s.outcome], sent, s.rows)
      else
        var rest := RunCycles(s.rows, clientId, clientSecret, responses[1..]);
        Trace([s.outcome] + rest.outcomes, sent + rest.requests, rest.rows)
  }

  lemma AppendAssociative<T>(a: seq<T>, b: seq<T>, c: seq<T>)
    ensures a + (b + c) == (a + b) + c
  {
  }

  /** `main()`: runs one pass per response until a pass crashes. */
  method MainLoop(darUtils: RinDARUtils, clientId: string, clientSecret: string, responses: seq<Response>)
    returns (outcomes: seq<Outcome>, requests: seq<Request>)
    requires darUtils.Valid()
    modifies darUtils
    ensures darUtils.Valid()
    ensures var t := RunCycles(old(darUtils.rows), clientId, clientSecret, responses);
            outcomes == t.outcomes && requests == t.requests && darUtils.rows == t.rows
  {
    ghost var whole := RunCycles(darUtils.rows, clientId, clientSecret, responses);
    outcomes, requests := [], [];
    var k := 0;
    while k < |responses|
      invariant darUtils.Valid()
      invariant 0 <= k <= |responses|
      invariant var t := RunCycles(darUtils.rows, clientId, clientSecret, responses[k..]);
                outcomes + t.outcomes == whole.outcomes && requests + t.requests == whole.requests
                && t.rows == whole.rows
      invariant forall j :: 0 <= j < |outcomes| ==> !outcomes[j].Crashed?
    {
      ghost var before := darUtils.rows;
      ghost var s := CycleStep(before, clientId, clientSecret, responses[k]);
      assert responses[k..][0] == responses[k] && responses[k..][1..] == responses[k + 1..];
      ghost var rest := RunCycles(s.rows, clientId, clientSecret, responses[k + 1..]);
      assert RunCycles(before, clientId, clientSecret, responses[k..])
             == if s.outcome.Crashed? then Trace([s.outcome], if s.request.Some? then [s.request.value] else [], s.rows)
                else Trace([s.outcome] + rest.outcomes,
                           (if s.request.Some? then [s.request.value] else []) + rest.requests, rest.rows);
      ghost var done, sentBefore := outcomes, requests;
      var outcome, request := Cycle(darUtils, clientId, clientSecret, responses[k]);
      var sent := if request.Some? then [request.value] else [];
      outcomes, requests := outcomes + [outcome], requests + sent;
      if outcome.Crashed? {
        return;
      }
      AppendAssociative(done, [outcome], rest.outcomes);
      AppendAssociative(sentBefore, sent, rest.requests);
      k := k + 1;
    }
    assert responses[k..] == [];
  }

  /** On an empty table every pass ends in `NoItemsError`: nothing is sent and nothing written. */
  lemma {:induction false} EmptyTableStaysQuiet(clientId: string, clientSecret: string, responses: seq<Response>)
    ensures var t := RunCycles([], clientId, clientSecret, responses);
            && |t.outcomes| == |responses| && (forall k :: 0 <= k < |t.outcomes| ==> t.outcomes[k] == NoItems)
            && t.requests == [] && t.rows == []
  {
    if responses != [] {
      EmptyTableStaysQuiet(clientId, clientSecret, responses[1..]);
    }
  }

  /**
   * While the endpoint keeps answering 400 with a parsable body, the table
   * never changes and every pass re-sends the first row's same refresh token.
   */
  lemma {:induction false} RejectionsRepeatRequest(rows: seq<DARData>, clientId: string, clientSecret: string,
                                                   responses: seq<Response>)
    requires ValidTable(rows) && rows != []
    requires forall k :: 0 <= k < |responses| ==>
               responses[k].Response? && responses[k].status == 400 && responses[k].body.Object?
    ensures var t := RunCycles(rows, clientId, clientSecret, responses);
            && |t.outcomes| == |t.requests| == |responses| && t.rows == rows
            && (forall k :: 0 <= k < |t.outcomes| ==> t.outcomes[k] == Rejected)
            && (forall k :: 0 <= k < |t.requests| ==>
                  t.requests[k] == Request(TokenEndpoint, GrantParams(clientId, clientSecret, rows[0].refreshToken)))
  {
    if responses != [] {
      CycleRejectedIff(rows, clientId, clientSecret, responses[0]);
      CycleRequestsFirstRowToken(rows, clientId, clientSecret, responses[0]);
      RejectionsRepeatRequest(rows, clientId, clientSecret, responses[1..]);
    }
  }

  /** Empty store: the pass ends in `NoItemsError`, sends nothing, and the store stays empty. */
  method ScenarioEmptyStore() returns (outcome: Outcome, request: Option<Request>, stored: seq<DARData>)
    ensures outcome == NoItems && request == None && stored == []
  {
    var darUtils := new RinDARUtils();
    outcome, request := Cycle(darUtils, "id", "secret", Response(200, Object(map[])));
    stored := darUtils.GetAllDARData();
  }

  /** Store `u1` with `rOld`; a 200 answer carrying `aNew`, `rNew` is written to `u1`. */
  method ScenarioRotation() returns (outcome: Outcome, request: Option<Request>, stored: seq<DARData>)
    ensures request == Some(Request(TokenEndpoint, GrantParams("id", "secret", "rOld")))
    ensures outcome == Updated && stored == [DARData("u1", "aNew", "rNew")]
  {
    var darUtils := new RinDARUtils();
    assert InsertResult([], DARData("u1", "aOld", "rOld")) == Written;
    var added := darUtils.AddToDARData("u1", "aOld", "rOld");
    assert darUtils.rows == [DARData("u1", "aOld", "rOld")];
    assert UpdateResult("u1", "aNew", "rNew") == Written;
    CycleRequestsFirstRowToken(darUtils.rows, "id", "secret",
                               Response(200, Object(map["access_token" := "aNew", "refresh_token" := "rNew"])));
    outcome, request := Cycle(darUtils, "id", "secret",
                              Response(200, Object(map["access_token" := "aNew", "refresh_token" := "rNew"])));
    stored := darUtils.GetAllDARData();
  }

  /** Same store, but a 400 answer: nothing is written and the next pass sends `rOld` again. */
  method ScenarioRejected() returns (outcome: Outcome, stored: seq<DARData>, nextRequest: Option<Request>)
    ensures outcome == Rejected && stored == [DARData("u1", "aOld", "rOld")]
    ensures nextRequest == Some(Request(TokenEndpoint, GrantParams("id", "secret", "rOld")))
  {
    var darUtils := new RinDARUtils();
    assert InsertResult([], DARData("u1", "aOld", "rOld")) == Written;
    var added := darUtils.AddToDARData("u1", "aOld", "rOld");
    assert darUtils.rows == [DARData("u1", "aOld", "rOld")];
    var request;
    outcome, request := Cycle(darUtils, "id", "secret", Response(400, Object(map["error" := "invalid_grant"])));
    stored := darUtils.GetAllDARData();
    CycleRequestsFirstRowToken(darUtils.rows, "id", "secret", Unreachable);
    var nextOutcome;
    nextOutcome, nextRequest := Cycle(darUtils, "id", "secret", Unreachable);
  }
}
