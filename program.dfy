/**
 * The request dispatcher (Program.cs): one limiter shared by every request, the
 * `Authorization` header check, team resolution from the path, delegation to the
 * team, and the mapping of what the team throws to a status code.
 */
module Dispatcher {
  import opened Wrappers
  import opened Http
  import opened Text
  import opened Teams
  import opened RateLimiting
  import opened Streams

  /** The limiter's configuration: 100 tokens, one more every 1000 ms. */
  const Capacity := 100
  const RefillRate := 1000

  const RateLimitMessage := "Rate limit exceeded"
  const InvalidTeamMessage := "Invalid team name"

  const Team1 := Team("team1", "PQWK7WdSdmrej6TC3xaf")
  const Team2 := Team("team2", "BvZGcmXW39RnL5MtpzvM")
  const Team3 := Team("team3", "fTfknjjeJqRD5myKTnK9")
  const Team4 := Team("team4", "MUnFEnRqzH4fBWRT8YXJ")

  /** The teams in the order the dispatcher tries them; each is reached by its user name. */
  const TeamOrder: seq<Team> := [Team1, Team2, Team3, Team4]

  /** `Url?.AbsolutePath.Trim('/')`. */
  function TeamPath(path: Option<string>): Option<string> {
    if path.None? then None else Some(Strip(path.value, {'/'}))
  }

  /** One rung of the ladder: the trimmed path is there, is not blank, and equals the
      team's name ignoring case. */
  predicate NamesTeam(path: Option<string>, team: Team) {
    path.Some? && !IsBlank(path.value) && EqualsIgnoreCase(path.value, team.username)
  }

  /** No string equals two team names ignoring case: they differ in their last letter. */
  lemma NamesAtMostOneTeam(p: string, i: nat, j: nat)
    requires i < |TeamOrder| && j < |TeamOrder|
    requires EqualsIgnoreCase(p, TeamOrder[i].username) && EqualsIgnoreCase(p, TeamOrder[j].username)
    ensures i == j
  {
    var digits := ['1', '2', '3', '4'];
    assert forall k :: 0 <= k < |TeamOrder| ==> TeamOrder[k].username[4] == digits[k];
    assert Lower(p[4]) == Lower(digits[i]) && Lower(p[4]) == Lower(digits[j]);
  }

  /** The rungs from `k` on: the first team the path names. */
  function FindTeam(path: Option<string>, k: nat): (r: Option<nat>)
    requires k <= |TeamOrder|
    ensures r.Some? ==> k <= r.value < |TeamOrder| && NamesTeam(path, TeamOrder[r.value])
    ensures r.None? <==> forall j :: k <= j < |TeamOrder| ==> !NamesTeam(path, TeamOrder[j])
    decreases |TeamOrder| - k
  {
    if k == |TeamOrder| then None
    else if NamesTeam(path, TeamOrder[k]) then Some(k)
    else FindTeam(path, k + 1)
  }

  /** The `if`/`else if` ladder over the four teams, on the trimmed path: the index of
      the one team the path names, if any. */
  function ResolveTeam(path: Option<string>): (r: Option<nat>)
    ensures r.Some? ==> r.value < |TeamOrder| && NamesTeam(TeamPath(path), TeamOrder[r.value])
    ensures r.Some? ==> forall j :: 0 <= j < |TeamOrder| && NamesTeam(TeamPath(path), TeamOrder[j]) ==> j == r.value
    ensures r.None? <==> forall j :: 0 <= j < |TeamOrder| ==> !NamesTeam(TeamPath(path), TeamOrder[j])
  {
    var r := FindTeam(TeamPath(path), 0);
    assert r.Some? ==> forall j :: 0 <= j < |TeamOrder| && NamesTeam(TeamPath(path), TeamOrder[j]) ==> j == r.value by {
      if r.Some? {
        forall j | 0 <= j < |TeamOrder| && NamesTeam(TeamPath(path), TeamOrder[j]) ensures j == r.value {
          NamesAtMostOneTeam(TeamPath(path).value, r.value, j);
        }
      }
    }
    r
  }

  /** Where the ladder of `ProcessRequest` sends a request. */
  datatype Route = Throttled | MissingAuthorization | InvalidTeam | ToTeam(index: nat)

  /** The checks of `ProcessRequest`, in order: the limiter's verdict, a non-empty
      `Authorization` header, then the team named by the path. */
  function RouteRequest(granted: bool, request: Request): (r: Route)
    ensures r == Throttled <==> !granted
    ensures r == MissingAuthorization <==>
      granted && (request.authorizationHeader.None? || request.authorizationHeader.value == "")
    ensures r.ToTeam? ==> r.index < |TeamOrder| && NamesTeam(TeamPath(request.path), TeamOrder[r.index])
    ensures r == InvalidTeam ==> forall j :: 0 <= j < |TeamOrder| ==> !NamesTeam(TeamPath(request.path), TeamOrder[j])
  {
    if !granted then Throttled
    else if request.authorizationHeader.None? || request.authorizationHeader.value == "" then MissingAuthorization
    else match ResolveTeam(request.path)
      case None => InvalidTeam
      case Some(i) => ToTeam(i)
  }

  /** The two `catch` blocks: an `HttpListenerException` sets its own code, anything
      else 500; both send `{ "error": message }`. */
  function Render(result: Result<Response, Exception>): (resp: Response)
    ensures result.Success? ==> resp == result.value
    ensures result.Failure? ==> resp.ErrorReply? && resp.message == result.error.message
    ensures result.Failure? && result.error.HttpListenerException? ==> resp.status == result.error.errorCode
    ensures result.Failure? && result.error.IOException? ==> resp.status == 500
  {
    match result
    case Success(resp) => resp
    case Failure(HttpListenerException(code, message)) => ErrorReply(code, message)
    case Failure(IOException(message)) => ErrorReply(500, message)
  }

  /** `ProcessRequest` once the limiter has answered: the response and the model store
      afterwards, `copied` being how the copier ended if the request uploads. A missing
      header throws outside the `try`, so no `catch` renders it. */
  function Respond(granted: bool, request: Request, st: StoreState, copied: Outcome): (r: (Response, StoreState))
    requires AsWrittenOutcome(request.body, ModelLimit, copied)
    ensures !granted ==> r == (ErrorReply(429, RateLimitMessage), st)
    ensures granted && (request.authorizationHeader.None? || request.authorizationHeader.value == "") ==>
      r == (Unhandled(HttpListenerException(401, UnauthorizedMessage)), st)
    ensures RouteRequest(granted, request) == InvalidTeam ==> r == (ErrorReply(400, InvalidTeamMessage), st)
    ensures r.0.ErrorReply? ==> r.0.status in {400, 401, 404, 405, 413, 429, 500}
    ensures r.0.Unhandled? ==> r.0.error == HttpListenerException(401, UnauthorizedMessage)
    ensures r.1 != st ==> var route := RouteRequest(granted, request);
      route.ToTeam? && TeamOrder[route.index].Decide(request).UploadModel?
  {
    match RouteRequest(granted, request)
    case Throttled => (ErrorReply(429, RateLimitMessage), st)
    case MissingAuthorization => (Unhandled(HttpListenerException(401, UnauthorizedMessage)), st)
    case InvalidTeam => (ErrorReply(400, InvalidTeamMessage), st)
    case ToTeam(i) =>
      var (result, after) := TeamOrder[i].Handle(request, st, copied);
      (Render(result), after)
  }

  /** A request as team `i` would send it: its path, its credentials, a header. */
  function TeamRequest(i: nat, httpMethod: string, query: string, body: seq<byte>): Request
    requires i < |TeamOrder|
  {
    Request(httpMethod, Some("/" + TeamOrder[i].username), Some(query), Some("Basic"),
      Some(Credentials(TeamOrder[i].username, TeamOrder[i].password)), body)
  }

  /** Trimming `/` from `/<name>` leaves `name` when `name` neither starts nor ends with `/`. */
  lemma StripLeadingSlash(name: string)
    requires name != [] && name[0] != '/' && name[|name| - 1] != '/'
    ensures Strip("/" + name, {'/'}) == name
  {
    var path := "/" + name;
    assert path[1..] == name;
    StripStartNoop(name, {'/'});
    StripEndNoop(name, {'/'});
  }

  /** The path `/<name>` names a team whose user name is `name`, when `name` neither
      starts with white space nor starts or ends with `/`. */
  lemma PathNamesTeam(name: string, team: Team)
    requires team.username == name && name != []
    requires name[0] !in WhiteSpace && name[0] != '/' && name[|name| - 1] != '/'
    ensures NamesTeam(TeamPath(Some("/" + name)), team)
  {
    assert TeamPath(Some("/" + name)) == Some(name) by {
      StripLeadingSlash(name);
    }
    assert !IsBlank(name);
    assert EqualsIgnoreCase(name, team.username);
  }

  /** Team `i`'s own path and credentials reach team `i`'s handler. */
  lemma TeamRequestReachesTeam(i: nat, httpMethod: string, query: string, body: seq<byte>)
    requires i < |TeamOrder|
    ensures RouteRequest(true, TeamRequest(i, httpMethod, query, body)) == ToTeam(i)
    ensures TeamOrder[i].CheckAuthorization(TeamRequest(i, httpMethod, query, body).identity)
  {
    var name := TeamOrder[i].username;
    assert |name| == 5 && name[0] == 't' && name[4] != '/' by {
      assert forall k :: 0 <= k < |TeamOrder| ==> |TeamOrder[k].username| == 5 && TeamOrder[k].username[0] == 't' && TeamOrder[k].username[4] != '/';
    }
    assert 't' !in WhiteSpace;
    PathNamesTeam(name, TeamOrder[i]);
    RouteToNamedTeam(TeamRequest(i, httpMethod, query, body), i);
  }

  /** With a non-empty header, a granted request goes to the one team its path names. */
  lemma RouteToNamedTeam(request: Request, i: nat)
    requires i < |TeamOrder| && NamesTeam(TeamPath(request.path), TeamOrder[i])
    requires request.authorizationHeader.Some? && request.authorizationHeader.value != ""
    ensures RouteRequest(true, request) == ToTeam(i)
  {
    var r := ResolveTeam(request.path);
    assert r.Some? && r.value == i;
  }

  /** A request routed to team `i` gets what that team's handler produces, rendered. */
  lemma RespondDelegates(request: Request, i: nat, st: StoreState, copied: Outcome)
    requires RouteRequest(true, request) == ToTeam(i) && i < |TeamOrder|
    requires AsWrittenOutcome(request.body, ModelLimit, copied)
    ensures var (result, after) := TeamOrder[i].Handle(request, st, copied);
      Respond(true, request, st, copied) == (Render(result), after)
  {
  }

  /**
   * Models are not kept per team: every team writes to the one model directory. A
   * model that team `i` uploads is what team `j` downloads under the same name, and
   * the upload succeeds and the download returns every byte when the body fits in
   * 1 GiB.
   */
  lemma ModelsAreSharedAcrossTeams(i: nat, j: nat, name: string, body: seq<byte>, st: StoreState, copied: Outcome)
    requires i < |TeamOrder| && j < |TeamOrder|
    requires SurvivesQuery(name) && |body| <= ModelLimit && AsWrittenOutcome(body, ModelLimit, copied)
    ensures var put := Respond(true, TeamRequest(i, "PUT", "?" + FileNameKey + name, body), st, copied);
      && put.0 == SuccessReply
      && Respond(true, TeamRequest(j, "GET", "?" + FileNameKey + name, []), put.1, Pass).0 == ModelReply(body)
  {
    var query := "?" + FileNameKey + name;
    var put := TeamRequest(i, "PUT", query, body);
    var get := TeamRequest(j, "GET", query, []);
    FileNameRoundTrip(name);
    TeamRequestReachesTeam(i, "PUT", query, body);
    TeamRequestReachesTeam(j, "GET", query, []);
    HandlePut(TeamOrder[i], put, name, st, copied);
    RespondDelegates(put, i, st, copied);
    var after := AfterUpload(st, name, body);
    HandleGet(TeamOrder[j], get, name, after, Pass);
    RespondDelegates(get, j, after, Pass);
  }

  /** An upload at least two chunks over 1 GiB gets 413, however the body arrives, and
      the store keeps its first 1 GiB under that name. */
  lemma OversizedUploadKeepsPrefix(i: nat, name: string, body: seq<byte>, st: StoreState, copied: Outcome)
    requires i < |TeamOrder| && SurvivesQuery(name)
    requires |body| >= ModelLimit + 2 * ChunkSize && AsWrittenOutcome(body, ModelLimit, copied)
    ensures var put := Respond(true, TeamRequest(i, "PUT", "?" + FileNameKey + name, body), st, copied);
      && put.0 == ErrorReply(413, TooLargeMessage)
      && name in put.1.files && put.1.files[name] == body[..ModelLimit]
  {
    var put := TeamRequest(i, "PUT", "?" + FileNameKey + name, body);
    FileNameRoundTrip(name);
    TeamRequestReachesTeam(i, "PUT", "?" + FileNameKey + name, body);
    HandlePut(TeamOrder[i], put, name, st, copied);
    RespondDelegates(put, i, st, copied);
    assert Limited(body, ModelLimit) == body[..ModelLimit];
  }

  /** An upload of 1 GiB and one byte is answered with success, however the body
      arrives, and the store keeps only the first 1 GiB: the last byte is lost without
      a 413. */
  lemma OneByteOverLimitUploadSucceeds(i: nat, name: string, body: seq<byte>, st: StoreState, copied: Outcome)
    requires i < |TeamOrder| && SurvivesQuery(name)
    requires |body| == ModelLimit + 1 && AsWrittenOutcome(body, ModelLimit, copied)
    ensures var put := Respond(true, TeamRequest(i, "PUT", "?" + FileNameKey + name, body), st, copied);
      && put.0 == SuccessReply
      && name in put.1.files && put.1.files[name] == body[..ModelLimit] && put.1.files[name] != body
  {
    var put := TeamRequest(i, "PUT", "?" + FileNameKey + name, body);
    FileNameRoundTrip(name);
    TeamRequestReachesTeam(i, "PUT", "?" + FileNameKey + name, body);
    HandlePut(TeamOrder[i], put, name, st, copied);
    RespondDelegates(put, i, st, copied);
    assert Limited(body, ModelLimit) == body[..ModelLimit];
  }

  /** Wrong credentials for the team the path names give 401 before the query or the
      method is looked at, and leave the store alone. */
  lemma WrongCredentialsRejectedFirst(request: Request, st: StoreState, copied: Outcome)
    requires request.authorizationHeader.Some? && request.authorizationHeader.value != ""
    requires ResolveTeam(request.path).Some?
    requires request.identity != Some(Credentials(TeamOrder[ResolveTeam(request.path).value].username,
                                                  TeamOrder[ResolveTeam(request.path).value].password))
    requires AsWrittenOutcome(request.body, ModelLimit, copied)
    ensures Respond(true, request, st, copied) == (ErrorReply(401, UnauthorizedMessage), st)
  {
  }

  /** The server: one limiter and one model store, shared by every request. The ghost
      counter `admitted` counts the requests the limiter let through. */
  class Server {
    const bucket: TokenBucket
    const store: ModelStore
    ghost const startTime: int
    ghost var admitted: nat

    /** The limiter keeps its configuration and its bounds, and has admitted at most its
        capacity plus one request per whole second since the server started, counted up
        to its last refill. */
    ghost predicate Valid()
      reads this, bucket
    {
      && bucket.Valid() && bucket.capacity == Capacity && bucket.refillRate == RefillRate
      && bucket.Bounded() && startTime <= bucket.lastRefillTime
      && admitted + bucket.tokens <= Capacity + NewTokens(bucket.lastRefillTime - startTime, RefillRate)
    }

    /** `Main`'s set-up: the limiter is created once, full, at start-up. */
    constructor (now: int, models: StoreState)
      ensures Valid() && fresh(bucket) && fresh(store) && admitted == 0 && startTime == now
      ensures bucket.State() == BucketState(Capacity, now) && store.State() == models
    {
      bucket := new TokenBucket(Capacity, RefillRate, now);
      store := new ModelStore(models);
      startTime := now;
      admitted := 0;
    }

    /** `ProcessRequest`: one token per request, then the ladder. */
    method ProcessRequest(request: Request, now: int) returns (response: Response)
      requires Valid()
      modifies bucket, store, this`admitted
      ensures Valid()
      ensures var (granted, after) := AfterConsume(old(bucket.State()), Capacity, RefillRate, 1, now);
        && bucket.State() == after
        && admitted == old(admitted) + (if granted then 1 else 0)
        && exists copied ::
             (AsWrittenOutcome(request.body, ModelLimit, copied)
              && (response, store.State()) == Respond(granted, request, old(store.State()), copied))
    {
      ghost var before := bucket.State();
      ghost var st := store.State();
      // Any outcome the copier allows will do when nothing is uploaded.
      ghost var unused: Outcome :=
        if |request.body| >= ModelLimit + 2 * ChunkSize then Fail(HttpListenerException(413, TooLargeMessage)) else Pass;
      assert AsWrittenOutcome(request.body, ModelLimit, unused);
      var granted := bucket.TryConsumeToken(1, now);
      ConsumeStep(before, Capacity, RefillRate, 1, now);
      Superadditive(before.lastRefillTime - startTime, bucket.lastRefillTime - before.lastRefillTime, RefillRate);
      if !granted {
        response := ErrorReply(429, RateLimitMessage);
        assert (response, st) == Respond(granted, request, st, unused);
        return;
      }
      admitted := admitted + 1;

      if request.authorizationHeader.None? || request.authorizationHeader.value == "" {
        response := Unhandled(HttpListenerException(401, UnauthorizedMessage));
        assert (response, st) == Respond(granted, request, st, unused);
        return;
      }

      var team := ResolveTeam(request.path);
      if team.None? {
        response := ErrorReply(400, InvalidTeamMessage);
        assert (response, st) == Respond(granted, request, st, unused);
        return;
      }
      var result := TeamOrder[team.value].HandleRequest(request, store);
      ghost var copied :| AsWrittenOutcome(request.body, ModelLimit, copied)
        && (result, store.State()) == TeamOrder[team.value].Handle(request, st, copied);
      response := Render(result);
      RespondDelegates(request, team.value, st, copied);
    }
  }
}
