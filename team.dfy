/**
 * A team's request handling (Team.cs): authorization, the `fileName` query
 * parameter, the choice between upload and download, and the model store. The
 * store is one directory, `ModelPath`, shared by every team; it is modelled as a
 * map from file name to contents plus whether the directory exists yet.
 */
module Teams {
  import opened Wrappers
  import opened Http
  import opened Text
  import opened Streams

  /** Where every team's models go: the path does not depend on the team. */
  const ModelPath := "/var/sc-ota/models"

  /** Largest model an upload accepts: 1 GiB, `1024 * 1024 * 1024` bytes. */
  const ModelLimit := 1_073_741_824

  /** The query parameter naming the model, matched ignoring case. */
  const FileNameKey := "fileName="

  const UnauthorizedMessage := "Missing or invalid 'Authorization' header"
  const MissingFileNameMessage := "Missing or empty 'fileName' parameter"
  const MethodNotAllowedMessage := "Only 'PUT' and 'GET' requests are allowed"

  function NotFoundMessage(fileName: string): string {
    "Model '" + fileName + "' could not be found"
  }

  /** What `File.OpenRead` reports when the model directory was never created. */
  function MissingDirectoryMessage(fileName: string): string {
    "Could not find a part of the path '" + ModelPath + "/" + fileName + "'."
  }

  // ---------------------------------------------------------------------------
  // The query string

  /** `Query.Trim('?').Split('&', TrimEntries | RemoveEmptyEntries)`. */
  function QueryTokens(query: string): (tokens: seq<string>)
    ensures forall i :: 0 <= i < |tokens| ==> IsTrimmedToken(tokens[i])
  {
    TrimEntries(Split(Strip(query, {'?'}), '&'))
  }

  /** The `FirstOrDefault` test `q.StartsWith("fileName=", InvariantCultureIgnoreCase)`. */
  predicate IsFileNameToken(token: string) {
    StartsWithIgnoreCase(token, FileNameKey)
  }

  /** `FirstOrDefault(q => q.StartsWith("fileName=", ...))`. */
  function FirstFileNameToken(tokens: seq<string>): (r: Option<string>)
    ensures r.None? <==> forall i :: 0 <= i < |tokens| ==> !IsFileNameToken(tokens[i])
    ensures r.Some? ==> IsFileNameToken(r.value) && r.value in tokens
  {
    if tokens == [] then None
    else if IsFileNameToken(tokens[0]) then Some(tokens[0])
    else
      var r := FirstFileNameToken(tokens[1..]);
      assert forall i :: 1 <= i < |tokens| ==> tokens[i] == tokens[1..][i - 1];
      r
  }

  /** The token found is the first one that carries the key. */
  lemma {:induction false} FirstFileNameTokenIsFirst(tokens: seq<string>, i: nat)
    requires i < |tokens| && IsFileNameToken(tokens[i])
    requires forall j :: 0 <= j < i ==> !IsFileNameToken(tokens[j])
    ensures FirstFileNameToken(tokens) == Some(tokens[i])
  {
    if i > 0 {
      FirstFileNameTokenIsFirst(tokens[1..], i - 1);
    }
  }

  /** `Url?.Query ... ?.Substring(9)`: the value of the first `fileName=` token, absent
      when there is no URL or no such token. */
  function FileNameParameter(query: Option<string>): Option<string>
  {
    if query.None? then None
    else
      var token := FirstFileNameToken(QueryTokens(query.value));
      if token.None? then None else Some(token.value[|FileNameKey|..])
  }

  /** A name that survives the trip through a query string `?fileName=<name>`: no `&`,
      and a last character that is neither white space nor `?`. */
  predicate SurvivesQuery(name: string) {
    name != [] && '&' !in name && name[|name| - 1] !in WhiteSpace && name[|name| - 1] != '?'
  }

  /** A query string holding one clean token parses to exactly that token. */
  lemma QueryOfOneToken(token: string)
    requires token != [] && '&' !in token
    requires token[0] != '?' && token[|token| - 1] != '?'
    requires token[0] !in WhiteSpace && token[|token| - 1] !in WhiteSpace
    ensures QueryTokens("?" + token) == [token]
  {
    var query := "?" + token;
    assert query[1..] == token;
    StripStartNoop(token, {'?'});
    StripEndNoop(token, {'?'});
    assert Strip(query, {'?'}) == token;
    SplitNoSeparator(token, '&');
    StripStartNoop(token, WhiteSpace);
    StripEndNoop(token, WhiteSpace);
    assert Strip(token, WhiteSpace) == token;
  }

  /** Putting such a name into a query string and parsing it gives the name back. */
  lemma FileNameRoundTrip(name: string)
    requires SurvivesQuery(name)
    ensures FileNameParameter(Some("?" + FileNameKey + name)) == Some(name)
    ensures !IsBlank(name)
  {
    var token := FileNameKey + name;
    assert "?" + FileNameKey + name == "?" + token;
    assert '&' !in token by {
      assert forall i :: 0 <= i < |token| ==> token[i] == if i < |FileNameKey| then FileNameKey[i] else name[i - |FileNameKey|];
    }
    assert token[0] == 'f' && token[|token| - 1] == name[|name| - 1];
    assert 'f' !in WhiteSpace;
    QueryOfOneToken(token);
    assert token[..|FileNameKey|] == FileNameKey;
    assert IsFileNameToken(token);
    assert FirstFileNameToken([token]) == Some(token);
    assert token[|FileNameKey|..] == name;
  }

  /** `FirstOrDefault` on a token followed by others. */
  lemma FirstFileNameTokenCons(t: string, rest: seq<string>)
    ensures FirstFileNameToken([t] + rest) == if IsFileNameToken(t) then Some(t) else FirstFileNameToken(rest)
  {
    assert ([t] + rest)[1..] == rest;
  }

  /** A piece of the split query that trims to a token carrying the key. */
  predicate KeyedPiece(piece: string) {
    IsFileNameToken(Strip(piece, WhiteSpace))
  }

  /** Every piece trimmed of white space, the empty ones kept. */
  function TrimAll(pieces: seq<string>): (ts: seq<string>)
    ensures |ts| == |pieces|
    ensures forall j :: 0 <= j < |pieces| ==> ts[j] == Strip(pieces[j], WhiteSpace)
  {
    if pieces == [] then [] else [Strip(pieces[0], WhiteSpace)] + TrimAll(pieces[1..])
  }

  /** The non-empty tokens, in order. */
  function NonEmpty(ts: seq<string>): (r: seq<string>)
    ensures forall k :: 0 <= k < |r| ==> r[k] != []
  {
    if ts == [] then [] else (if ts[0] == [] then [] else [ts[0]]) + NonEmpty(ts[1..])
  }

  /** `TrimEntries` is trimming every piece, then removing the empty ones. */
  lemma {:induction false} TrimEntriesTrimsThenFilters(pieces: seq<string>)
    ensures TrimEntries(pieces) == NonEmpty(TrimAll(pieces))
  {
    if pieces != [] {
      TrimEntriesTrimsThenFilters(pieces[1..]);
      assert TrimAll(pieces)[1..] == TrimAll(pieces[1..]);
    }
  }

  /** An empty token never carries the key, so removing the empty tokens changes nothing
      for `FirstOrDefault`. */
  lemma {:induction false} FirstFileNameTokenSkipsEmpty(ts: seq<string>)
    ensures FirstFileNameToken(NonEmpty(ts)) == FirstFileNameToken(ts)
  {
    if ts != [] {
      var rest := NonEmpty(ts[1..]);
      FirstFileNameTokenSkipsEmpty(ts[1..]);
      if ts[0] == [] {
        assert !IsFileNameToken(ts[0]);
        assert NonEmpty(ts) == rest;
      } else {
        FirstFileNameTokenCons(ts[0], rest);
      }
    }
  }

  /** Of the pieces of a split query, the first whose trimmed form carries the key is
      the token found; empty pieces and pieces without the key before it are passed over. */
  lemma FirstKeyedPieceWins(pieces: seq<string>, i: nat)
    requires i < |pieces| && KeyedPiece(pieces[i])
    requires forall j :: 0 <= j < i ==> !KeyedPiece(pieces[j])
    ensures FirstFileNameToken(TrimEntries(pieces)) == Some(Strip(pieces[i], WhiteSpace))
  {
    var ts := TrimAll(pieces);
    assert FirstFileNameToken(ts) == Some(Strip(pieces[i], WhiteSpace)) by {
      FirstFileNameTokenIsFirst(ts, i);
    }
    assert FirstFileNameToken(TrimEntries(pieces)) == FirstFileNameToken(ts) by {
      TrimEntriesTrimsThenFilters(pieces);
      FirstFileNameTokenSkipsEmpty(ts);
    }
  }

  /** The value of `fileName` is what follows the key in the first `&`-separated piece of
      the query, with `?` trimmed from the query's ends and white space from the
      piece's, that starts with `fileName=` ignoring case. */
  lemma FileNameFromFirstKeyedPiece(query: string, i: nat)
    requires i < |Split(Strip(query, {'?'}), '&')|
    requires KeyedPiece(Split(Strip(query, {'?'}), '&')[i])
    requires forall j :: 0 <= j < i ==> !KeyedPiece(Split(Strip(query, {'?'}), '&')[j])
    ensures FileNameParameter(Some(query)) == Some(Strip(Split(Strip(query, {'?'}), '&')[i], WhiteSpace)[|FileNameKey|..])
  {
    FirstKeyedPieceWins(Split(Strip(query, {'?'}), '&'), i);
  }

  /** The other half: a query none of whose `&`-separated pieces carries the key, once
      trimmed of white space, has no file name. */
  lemma NoKeyedPieceNoFileName(query: string)
    requires forall j :: 0 <= j < |Split(Strip(query, {'?'}), '&')| ==> !KeyedPiece(Split(Strip(query, {'?'}), '&')[j])
    ensures FileNameParameter(Some(query)) == None
  {
    var pieces := Split(Strip(query, {'?'}), '&');
    TrimEntriesTrimsThenFilters(pieces);
    FirstFileNameTokenSkipsEmpty(TrimAll(pieces));
  }

  /** `?` followed by pieces joined with `&`, none holding `&` or `?`, splits back into
      those pieces. */
  lemma QueryPieces(pieces: seq<string>)
    requires |pieces| >= 1 && SeparatorFree(pieces, '&') && SeparatorFree(pieces, '?')
    ensures Split(Strip("?" + Join(pieces, '&'), {'?'}), '&') == pieces
  {
    var joined := Join(pieces, '&');
    assert '?' !in joined by {
      if '?' in joined {
        JoinChars(pieces, '&', '?');
      }
    }
    SplitJoin(pieces, '&');
    assert ("?" + joined)[1..] == joined;
    StripStartNoop(joined, {'?'});
    StripEndNoop(joined, {'?'});
    assert Strip("?" + joined, {'?'}) == joined;
  }

  /** The piece `fileName=<name>` is its own trimmed form, carries the key, and holds
      `name` after it. */
  lemma KeyedToken(name: string)
    requires SurvivesQuery(name)
    ensures var token := FileNameKey + name;
      && Strip(token, WhiteSpace) == token && IsFileNameToken(token) && token[|FileNameKey|..] == name
      && '&' !in token && ('?' !in name ==> '?' !in token)
  {
    var token := FileNameKey + name;
    assert '&' !in FileNameKey && '?' !in FileNameKey;
    assert token[0] == 'f' && token[|token| - 1] == name[|name| - 1];
    assert 'f' !in WhiteSpace;
    StripStartNoop(token, WhiteSpace);
    StripEndNoop(token, WhiteSpace);
    assert token[..|FileNameKey|] == FileNameKey;
  }

  /** `fileName=<name>` holds `&` or `?` only if `name` does. */
  lemma TokenSeparatorFree(name: string)
    requires '&' !in name && '?' !in name
    ensures '&' !in FileNameKey + name && '?' !in FileNameKey + name
  {
    assert '&' !in FileNameKey && '?' !in FileNameKey;
  }

  /** `?` and `&`-joined pieces, the `k`-th of them `fileName=<name>` and none before it
      carrying the key: the file name is `name`. */
  lemma FileNameOfPieces(pieces: seq<string>, k: nat, name: string)
    requires k < |pieces| && pieces[k] == FileNameKey + name && SurvivesQuery(name)
    requires SeparatorFree(pieces, '&') && SeparatorFree(pieces, '?')
    requires forall j :: 0 <= j < k ==> !KeyedPiece(pieces[j])
    ensures FileNameParameter(Some("?" + Join(pieces, '&'))) == Some(name)
  {
    var query := "?" + Join(pieces, '&');
    assert Split(Strip(query, {'?'}), '&') == pieces by {
      QueryPieces(pieces);
    }
    assert KeyedPiece(pieces[k]) && Strip(pieces[k], WhiteSpace)[|FileNameKey|..] == name by {
      KeyedToken(name);
    }
    FileNameFromFirstKeyedPiece(query, k);
  }

  /** A query of several parameters: `fileName` comes from the first piece that carries
      the key, whatever pieces come before it without the key and whatever come after. */
  lemma FileNameAmongParameters(before: seq<string>, name: string, after: seq<string>)
    requires SeparatorFree(before, '&') && SeparatorFree(before, '?')
    requires forall i :: 0 <= i < |before| ==> !KeyedPiece(before[i])
    requires SeparatorFree(after, '&') && SeparatorFree(after, '?')
    requires SurvivesQuery(name) && '?' !in name
    ensures FileNameParameter(Some("?" + Join(before + [FileNameKey + name] + after, '&'))) == Some(name)
  {
    var token := FileNameKey + name;
    var pieces := before + [token] + after;
    assert '&' !in token && '?' !in token by {
      KeyedToken(name);
    }
    assert |before| < |pieces| && pieces[|before|] == token
      && SeparatorFree(pieces, '&') && SeparatorFree(pieces, '?')
      && forall j :: 0 <= j < |before| ==> !KeyedPiece(pieces[j]) by {
      PiecesAround(before, token, after, '&');
      PiecesAround(before, token, after, '?');
    }
    FileNameOfPieces(pieces, |before|, name);
  }

  /** `?fileName=<name>&<other>`, as in `?fileName=x&v=2`: whatever follows the
      `fileName` parameter is not part of the name. */
  lemma FileNameBeforeOtherParameter(name: string, other: string)
    requires SurvivesQuery(name) && '?' !in name
    requires '&' !in other && '?' !in other
    ensures FileNameParameter(Some("?" + Join([FileNameKey + name, other], '&'))) == Some(name)
  {
    var pieces := [FileNameKey + name, other];
    assert SeparatorFree(pieces, '&') && SeparatorFree(pieces, '?') by {
      TokenSeparatorFree(name);
    }
    FileNameOfPieces(pieces, 0, name);
  }

  // ---------------------------------------------------------------------------
  // The model store

  /** The model directory: the files in it and whether it exists yet. */
  datatype StoreState = StoreState(files: map<string, seq<byte>>, directoryExists: bool)

  /** The store after `UploadModel`: the directory exists, and the file, created or
      truncated, holds what the bounded copier wrote, that is the bytes of the body that
      fit under 1 GiB. On 413 the file keeps those bytes too. */
  function AfterUpload(st: StoreState, fileName: string, body: seq<byte>): (r: StoreState)
    ensures r.directoryExists && r.files.Keys == st.files.Keys + {fileName}
    ensures r.files[fileName] == Limited(body, ModelLimit)
    ensures |body| <= ModelLimit ==> r.files[fileName] == body
    ensures forall other :: other in st.files && other != fileName ==> r.files[other] == st.files[other]
  {
    StoreState(st.files[fileName := Limited(body, ModelLimit)], true)
  }

  /** `UploadModel` with the copier as written: the new store, and the outcome `copied`
      that the copier ended in, which the transport's chunking picks among those
      `AsWrittenOutcome` allows. A body within 1 GiB always passes, one at least two
      chunks over it always gets 413, and one just over it may pass truncated. */
  function Upload(st: StoreState, fileName: string, body: seq<byte>, copied: Outcome): (r: (StoreState, Outcome))
    requires AsWrittenOutcome(body, ModelLimit, copied)
    ensures r.0 == AfterUpload(st, fileName, body)
    ensures r.1.Fail? ==> r.1.error == HttpListenerException(413, TooLargeMessage) && |body| >= ModelLimit + 2
    ensures |body| <= ModelLimit + 1 ==> r.1 == Pass
    ensures |body| >= ModelLimit + 2 * ChunkSize ==> r.1.Fail?
  {
    (AfterUpload(st, fileName, body), copied)
  }

  /** `DownloadModel`: the stored bytes; 404 when the file is missing; and, because only
      `FileNotFoundException` is turned into 404, an I/O error (500) when the directory
      itself is missing. */
  function Download(st: StoreState, fileName: string): (r: Result<seq<byte>, Exception>)
    ensures r.Success? <==> st.directoryExists && fileName in st.files
    ensures r.Success? ==> r.value == st.files[fileName]
    ensures st.directoryExists && fileName !in st.files ==>
      r == Failure(HttpListenerException(404, NotFoundMessage(fileName)))
    ensures !st.directoryExists ==> r.Failure? && r.error.IOException?
  {
    if !st.directoryExists then Failure(IOException(MissingDirectoryMessage(fileName)))
    else if fileName in st.files then Success(st.files[fileName])
    else Failure(HttpListenerException(404, NotFoundMessage(fileName)))
  }

  /** What an upload leaves behind: the uploaded name now gives back the bytes that fit
      under the limit (all of them when the body fits), and every other name gives what
      it gave before, except that a missing name now gives 404 instead of an I/O error
      since the directory exists. */
  lemma DownloadAfterUpload(st: StoreState, fileName: string, other: string, body: seq<byte>)
    requires other != fileName
    ensures var after := AfterUpload(st, fileName, body);
      && Download(after, fileName) == Success(Limited(body, ModelLimit))
      && (|body| <= ModelLimit ==> Download(after, fileName) == Success(body))
      && Download(after, other) == Download(st.(directoryExists := true), other)
  {
  }

  /** Once authorized with a non-blank file name, `PUT` completes with the outcome of
      the upload and leaves the store as the upload does. */
  lemma HandlePut(team: Team, request: Request, fileName: string, st: StoreState, copied: Outcome)
    requires team.CheckAuthorization(request.identity) && request.httpMethod == "PUT"
    requires FileNameParameter(request.query) == Some(fileName) && !IsBlank(fileName)
    requires AsWrittenOutcome(request.body, ModelLimit, copied)
    ensures team.Handle(request, st, copied)
      == (if copied.Fail? then Failure(copied.error) else Success(SuccessReply), AfterUpload(st, fileName, request.body))
  {
    assert team.Decide(request) == UploadModel(fileName);
  }

  /** Once authorized with a non-blank file name, `GET` completes with the result of the
      download and leaves the store unchanged. */
  lemma HandleGet(team: Team, request: Request, fileName: string, st: StoreState, copied: Outcome)
    requires team.CheckAuthorization(request.identity) && request.httpMethod == "GET"
    requires FileNameParameter(request.query) == Some(fileName) && !IsBlank(fileName)
    requires AsWrittenOutcome(request.body, ModelLimit, copied)
    ensures team.Handle(request, st, copied).1 == st
    ensures team.Handle(request, st, copied).0 == match Download(st, fileName)
      case Success(bytes) => Success(ModelReply(bytes))
      case Failure(e) => Failure(e)
  {
    assert team.Decide(request) == DownloadModel(fileName);
  }

  /** An authorized request whose query carries no `fileName=` piece, such as `?a=1&b=2`,
      is rejected with 400 and leaves the store unchanged, whatever its method. */
  lemma UnkeyedQueryRejected(team: Team, request: Request, st: StoreState, copied: Outcome)
    requires team.CheckAuthorization(request.identity) && request.query.Some?
    requires var pieces := Split(Strip(request.query.value, {'?'}), '&');
      forall j :: 0 <= j < |pieces| ==> !KeyedPiece(pieces[j])
    requires AsWrittenOutcome(request.body, ModelLimit, copied)
    ensures team.Handle(request, st, copied) == (Failure(HttpListenerException(400, MissingFileNameMessage)), st)
  {
    NoKeyedPieceNoFileName(request.query.value);
    assert !HasFileName(request);
  }

  /** The model directory on disk, updated in place. */
  class ModelStore {
    var files: map<string, seq<byte>>
    var directoryExists: bool

    function State(): StoreState
      reads this
    {
      StoreState(files, directoryExists)
    }

    constructor (initial: StoreState)
      ensures State() == initial
    {
      files := initial.files;
      directoryExists := initial.directoryExists;
    }

    /** `UploadModel`: create the directory, create or truncate the file and copy the
        request body into it with the copier as written. */
    method UploadModel(requestStream: InputStream, fileName: string) returns (r: Outcome)
      requires requestStream.Valid()
      modifies this, requestStream
      ensures AsWrittenOutcome(old(requestStream.Remaining()), ModelLimit, r)
      ensures (State(), r) == Upload(old(State()), fileName, old(requestStream.Remaining()), r)
    {
      ghost var body := requestStream.Remaining();
      directoryExists := true;
      var fileStream := new OutputStream();
      r := CopyStreamLimited(requestStream, fileStream, ModelLimit);
      files := files[fileName := fileStream.written];
      assert fileStream.written == Limited(body, ModelLimit);
    }

    /** The intended variant of `UploadModel`, through the corrected copier: the same
        store afterwards, and a 413 exactly when the body exceeds 1 GiB. */
    method UploadModelFixed(requestStream: InputStream, fileName: string) returns (r: Outcome)
      requires requestStream.Valid()
      modifies this, requestStream
      ensures State() == AfterUpload(old(State()), fileName, old(requestStream.Remaining()))
      ensures r.Fail? <==> |old(requestStream.Remaining())| > ModelLimit
      ensures r.Fail? ==> r.error == HttpListenerException(413, TooLargeMessage)
    {
      ghost var body := requestStream.Remaining();
      directoryExists := true;
      var fileStream := new OutputStream();
      r := CopyStreamLimitedFixed(requestStream, fileStream, ModelLimit);
      files := files[fileName := fileStream.written];
      assert fileStream.written == Limited(body, ModelLimit);
    }

    method DownloadModel(fileName: string) returns (r: Result<seq<byte>, Exception>)
      ensures r == Download(State(), fileName)
    {
      if !directoryExists {
        return Failure(IOException(MissingDirectoryMessage(fileName)));
      }
      if fileName !in files {
        return Failure(HttpListenerException(404, NotFoundMessage(fileName)));
      }
      return Success(files[fileName]);
    }
  }

  // ---------------------------------------------------------------------------
  // A team

  /** The request names a model: `fileName` is present and not blank. */
  predicate HasFileName(request: Request) {
    FileNameParameter(request.query).Some? && !IsBlank(FileNameParameter(request.query).value)
  }

  /** What `HandleRequest` goes on to do once its checks are done. */
  datatype Action = Reject(error: Exception) | UploadModel(fileName: string) | DownloadModel(fileName: string)

  /** A team: fixed credentials, and no state of its own. */
  datatype Team = Team(username: string, password: string) {

    /** `CheckAuthorization`: the listener decoded an identity whose name and password
        are exactly this team's. */
    function CheckAuthorization(identity: Option<Credentials>): (ok: bool)
      ensures ok <==> identity == Some(Credentials(username, password))
    {
      identity.Some? && identity.value.name == username && identity.value.password == password
    }

    /** The checks of `HandleRequest`, in order: authorization, then a non-blank
        `fileName`, then the method (`PUT` uploads, `GET` downloads, others get 405). */
    function Decide(request: Request): (a: Action)
      ensures !CheckAuthorization(request.identity) ==>
        a == Reject(HttpListenerException(401, UnauthorizedMessage))
      ensures CheckAuthorization(request.identity) && !HasFileName(request) ==>
        a == Reject(HttpListenerException(400, MissingFileNameMessage))
      ensures (CheckAuthorization(request.identity) && HasFileName(request)
               && request.httpMethod != "PUT" && request.httpMethod != "GET") ==>
        a == Reject(HttpListenerException(405, MethodNotAllowedMessage))
      ensures a.UploadModel? <==>
        CheckAuthorization(request.identity) && HasFileName(request) && request.httpMethod == "PUT"
      ensures a.DownloadModel? <==>
        CheckAuthorization(request.identity) && HasFileName(request) && request.httpMethod == "GET"
      ensures a.UploadModel? || a.DownloadModel? ==> FileNameParameter(request.query) == Some(a.fileName)
      ensures a.Reject? ==> a.error.HttpListenerException? && a.error.errorCode in {400, 401, 405}
    {
      if !CheckAuthorization(request.identity) then
        Reject(HttpListenerException(401, UnauthorizedMessage))
      else
        var fileName := FileNameParameter(request.query);
        if fileName.None? || IsBlank(fileName.value) then
          Reject(HttpListenerException(400, MissingFileNameMessage))
        else if request.httpMethod == "PUT" then UploadModel(fileName.value)
        else if request.httpMethod == "GET" then DownloadModel(fileName.value)
        else Reject(HttpListenerException(405, MethodNotAllowedMessage))
    }

    /** `HandleRequest` as a whole: the response it completes with or the exception it
        throws, and the store afterwards; `copied` is how the copier ended if the
        request uploads. */
    function Handle(request: Request, st: StoreState, copied: Outcome): (r: (Result<Response, Exception>, StoreState))
      requires AsWrittenOutcome(request.body, ModelLimit, copied)
      ensures Decide(request).Reject? ==> r == (Failure(Decide(request).error), st)
      ensures r.1 != st ==> Decide(request).UploadModel?
      ensures r.0.Success? ==> r.0.value == SuccessReply || r.0.value.ModelReply?
    {
      match Decide(request)
      case Reject(e) => (Failure(e), st)
      case UploadModel(fileName) =>
        var (after, outcome) := Upload(st, fileName, request.body, copied);
        (if outcome.Fail? then Failure(outcome.error) else Success(SuccessReply), after)
      case DownloadModel(fileName) =>
        match Download(st, fileName)
        case Success(bytes) => (Success(ModelReply(bytes)), st)
        case Failure(e) => (Failure(e), st)
    }

    /** The result and the new store are those of `Handle` for an outcome the copier as
        written can end in. */
    method HandleRequest(request: Request, store: ModelStore) returns (r: Result<Response, Exception>)
      modifies store
      ensures exists copied ::
        (AsWrittenOutcome(request.body, ModelLimit, copied) && (r, store.State()) == Handle(request, old(store.State()), copied))
    {
      ghost var st := store.State();
      // Any outcome the copier allows will do when nothing is uploaded.
      ghost var copied: Outcome :=
        if |request.body| >= ModelLimit + 2 * ChunkSize then Fail(HttpListenerException(413, TooLargeMessage)) else Pass;
      if !CheckAuthorization(request.identity) {
        r := Failure(HttpListenerException(401, UnauthorizedMessage));
        assert Decide(request) == Reject(HttpListenerException(401, UnauthorizedMessage));
      } else {
        var fileName := FileNameParameter(request.query);
        if fileName.None? || IsBlank(fileName.value) {
          r := Failure(HttpListenerException(400, MissingFileNameMessage));
          assert Decide(request) == Reject(HttpListenerException(400, MissingFileNameMessage));
        } else if request.httpMethod == "PUT" {
          assert Decide(request) == UploadModel(fileName.value);
          var inputStream := new InputStream(request.body);
          var outcome := store.UploadModel(inputStream, fileName.value);
          copied := outcome;
          if outcome.Fail? {
            r := Failure(outcome.error);
          } else {
            r := Success(SuccessReply);
          }
        } else if request.httpMethod == "GET" {
          assert Decide(request) == DownloadModel(fileName.value);
          var download := store.DownloadModel(fileName.value);
          if download.Failure? {
            r := Failure(download.error);
          } else {
            r := Success(ModelReply(download.value));
          }
        } else {
          r := Failure(HttpListenerException(405, MethodNotAllowedMessage));
          assert Decide(request) == Reject(HttpListenerException(405, MethodNotAllowedMessage));
        }
      }
      assert AsWrittenOutcome(request.body, ModelLimit, copied);
      assert (r, store.State()) == Handle(request, st, copied);
    }
  }
}
