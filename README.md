# sc-ota-server: rate limiter, team handler and dispatcher in Dafny

This project models the request pipeline of the sc-ota-server model-exchange server. Four teams upload and download binary
models over HTTP. The model has four parts:

- **`RateLimiting`** (`token_bucket.dfy`): the token bucket that guards every request. `TokenBucket` is a class whose
  `tokens` and `lastRefillTime` change in place. The pure functions `AfterRefill` and `AfterConsume` specify its two
  operations, and the lemmas prove what they keep and what they hand out over any run. The wall clock is an integer
  parameter `now`, in milliseconds.
- **`Streams`** (`streams.dfy`): the bounded copier `CopyStreamLimited`. The source is a cursor over the bytes the client
  sends, and `Read` returns whatever number of bytes the transport chooses. The destination is an appended sequence.
- **`Teams`** (`team.dfy`): a team's `HandleRequest`. It checks authorization, parses `fileName` from the query string,
  dispatches on the method, and uploads to or downloads from the model directory. The directory is a map from name to
  bytes, plus a flag saying whether it exists yet. `ModelStore` is the class that updates it in place.
- **`Dispatcher`** (`program.dfy`): `ProcessRequest`.
  - It asks the limiter for one token, checks the `Authorization` header, resolves the team from the path, delegates,
    and maps the exception the team throws to a status code.
  - `Respond` is the pure decision.
  - `Server` holds the one shared limiter and the one shared store. Its invariant bounds the total number of admitted
    requests by 100 plus one per whole second between start-up and the last refill.

`Text` (`text.dfy`) models the .NET string operations the handlers use: `Trim`, `Split` with `TrimEntries` and
`RemoveEmptyEntries`, `IsNullOrWhiteSpace`, and the ignore-case comparisons. `Http` (`http.dfy`) holds the request,
response and exception values, `Wrappers` holds `Option` and `Result`, and `Numbers` (`numbers.dfy`) holds the `Min` that the limiter and the copier share.

Behaviour worth noting, as the code has it:

- The query router knows only `fileName=`. The key is matched case-insensitively, and the first matching token wins.
  Other tokens are ignored rather than rejected. There are no listing, reset or results actions.
- Every team reads and writes the same directory `/var/sc-ota/models`. There is no per-team isolation, which
  `Dispatcher.ModelsAreSharedAcrossTeams` proves.
- File names are not sanitised.
- A missing `Authorization` header throws outside the `try` of `ProcessRequest`. The request's lambda is `async void`, so
  the exception is rethrown on the thread pool, which by default ends the process, and no response is sent. The model
  returns `Unhandled` for that request.
- The credentials are checked by the team after it has been resolved from the path.
- A `GET` before any upload finds no model directory. That raises an I/O error rather than `FileNotFoundException`, so
  the client gets 500, not 404.
- The bounded copier reads a chunk before it tests the limit, so the chunk that ends the loop is lost. A body just over
  1 GiB can be stored truncated and answered with success. The team and dispatcher layers follow this copier as
  written; its exact outcome depends on how the transport splits the body into reads, so it is a parameter `copied`
  constrained by `Streams.AsWrittenOutcome` (see "## Findings").

## Model

| member | source | states |
|---|---|---|
| RateLimiting.TokenBucket.constructor | TokenBucket.cs:11-17 | a new bucket is full (`tokens == capacity`), its refill clock starts at `now`, and it is within bounds when the capacity is non-negative |
| RateLimiting.TokenBucket.TryConsumeToken | TokenBucket.cs:19-33 | the verdict and the new state are `AfterConsume` of the old state: granted iff the refilled count is at least `count`, deducted by exactly `count` only when granted; `0 <= tokens <= capacity` is preserved for `count >= 0` |
| RateLimiting.TokenBucket.Refill | TokenBucket.cs:35-46 | the new state is `AfterRefill` of the old one at `now` |
| RateLimiting.NewTokens | TokenBucket.cs:39 | the truncating cast: for non-negative elapsed time, the whole number of intervals (`q*rate <= elapsed < q*rate + rate`); never positive for negative elapsed time; positive iff at least one whole interval has elapsed |
| RateLimiting.AfterRefill | TokenBucket.cs:37-45 | the pure state change of `Refill`; it has no contract of its own, and `RefillCharacterised`, `RefillKeepsBounds` and `PartialIntervalsAccumulate` state what it does |
| RateLimiting.AfterConsume | TokenBucket.cs:23-31 | granted iff the post-refill count is at least `count`; tokens drop by `count` when granted and stay at the post-refill value when not; the refill time is the post-refill one |
| RateLimiting.RefillCharacterised | TokenBucket.cs:38-45 | with at least one whole interval elapsed, tokens become `min(tokens + elapsed / rate, capacity)` and the refill time becomes `now`; otherwise, including zero or negative elapsed time, the state is unchanged |
| RateLimiting.RefillKeepsBounds | TokenBucket.cs:41-43 | refilling keeps `0 <= tokens <= capacity` and never lowers the count |
| RateLimiting.ConsumeKeepsBounds | TokenBucket.cs:25-31 | consuming a non-negative count keeps `0 <= tokens <= capacity` |
| RateLimiting.PartialIntervalsAccumulate | TokenBucket.cs:41-45 | a refill that adds nothing leaves the clock alone, so a later refill counts from the earlier refill time |
| RateLimiting.RemainderDiscarded | TokenBucket.cs:44 | the remainder of an interval is thrown away: refills at 1500 ms and 2000 ms give one token where one refill at 2000 ms gives two |
| RateLimiting.Superadditive | TokenBucket.cs:39 | whole intervals counted over two consecutive spans are at most those counted over their union |
| RateLimiting.SplitRefillNeverGains | TokenBucket.cs:38-45 | with time moving forward, two refills never yield more tokens than one refill at the later time |
| RateLimiting.ConsumeStep | TokenBucket.cs:19-46 | one call never moves the refill time back, and tokens after the call plus tokens handed out are at most tokens before plus the whole intervals between the two refill times |
| RateLimiting.RunHandsOutAtMostRefills | TokenBucket.cs:19-46 | over any sequence of calls with non-negative counts, whatever the clock does, the bucket stays within bounds and the total count granted plus what is left is at most the initial tokens plus one per whole interval between the first and last refill times |
| Streams.Limited | Team.cs:82-87 | the bytes that fit: a prefix of the input no longer than the limit, all of it when it fits, exactly the limit when it does not |
| Streams.InputStream.Read | Team.cs:80 | `ReadAsync`: the next at most `count` bytes in order, at least one while any are left and `count > 0` |
| Streams.OutputStream.Write | Team.cs:85 | appends the chunk |
| Streams.CopyStreamLimited | Team.cs:74-94 | as written: the destination gains exactly the first `maxBytes` bytes of the source (all of them if fewer), whatever the chunking; a pass leaves the source fully read, so the chunk the loop test discarded is gone before the probe; a failure is the 413 exception and requires the source to hold at least two bytes more than the limit, so a source within the limit plus one byte never fails; a source at least two 4096-byte chunks over the limit always fails |
| Streams.OneByteTooLongIsAccepted | Team.cs:80-93 | as written, a three-byte source under a two-byte limit passes and is truncated to its first two bytes |
| Streams.CopyStreamLimitedFixed | Team.cs:74-94 | as intended: the same bytes are written, and the 413 is raised exactly when the source is longer than the limit |
| Text.IsBlank | Team.cs:32 | `string.IsNullOrWhiteSpace` on a string that is present: empty or only white space. It is a definition with no contract of its own; `Teams.HasFileName` and `Teams.Team.Decide` (the 400) and `Dispatcher.NamesTeam` and `Dispatcher.ResolveTeam` (Program.cs:43) use it. `WhiteSpace` lists the characters `Char.IsWhiteSpace` accepts: the space, line and paragraph separators, U+0009 to U+000D and U+0085 |
| Text.Lower | Program.cs:44 | the case folding behind the ignore-case comparisons; a definition with no contract of its own. It folds ASCII letters only, the approximation named under "## Left out" (culture-aware comparisons) |
| Text.EqualsIgnoreCase | Program.cs:43-59 | `string.Compare(a, b, InvariantCulture, IgnoreCase) == 0`: same length and equal letter by letter after `Lower`. A definition with no contract of its own; `Dispatcher.NamesTeam`, `Dispatcher.ResolveTeam` and `Dispatcher.NamesAtMostOneTeam` use it. The folding is ASCII only (see "## Left out", culture-aware comparisons) |
| Text.StartsWithIgnoreCase | Team.cs:31 | `s.StartsWith(prefix, InvariantCultureIgnoreCase)`: the prefix fits and equals the start of `s` ignoring case. A definition with no contract of its own, used through `Teams.IsFileNameToken`; the folding is ASCII only (see "## Left out", culture-aware comparisons) |
| Text.StripStart | Team.cs:30 | `TrimStart`: the longest suffix that does not begin with a dropped character; everything removed is dropped |
| Text.StripEnd | Team.cs:30 | `TrimEnd`: the longest prefix that does not end with a dropped character; everything removed is dropped |
| Text.Strip | Program.cs:42 | `Trim`: both ends free of dropped characters, empty exactly when every character is dropped, and no new characters |
| Text.Split | Team.cs:30 | `Split('&')`: at least one piece, no piece contains the separator, and joining the pieces with it gives the input back |
| Text.SplitNoSeparator | Team.cs:30 | a string without the separator splits into itself alone |
| Text.TrimEntries | Team.cs:30 | `TrimEntries \| RemoveEmptyEntries`: no more tokens than pieces, each non-empty and free of white space at both ends |
| Teams.QueryTokens | Team.cs:30 | every token of the parsed query is non-empty and trimmed |
| Teams.FileNameParameter | Team.cs:30-31 | `Url?.Query ... ?.Substring(9)`; it has no contract of its own: `FileNameFromFirstKeyedPiece` gives the name when a piece carries the key, `NoKeyedPieceNoFileName` gives none when no piece does, and the query lemmas below give it for queries built from parameters |
| Teams.IsFileNameToken | Team.cs:31 | the `FirstOrDefault` lambda `q.StartsWith("fileName=", InvariantCultureIgnoreCase)`; a definition with no contract of its own, which `Teams.FirstFileNameToken`, `Teams.FirstKeyedPieceWins` and `Teams.NoKeyedPieceNoFileName` use. ASCII case folding is the approximation named under "## Left out" (culture-aware comparisons) |
| Teams.FirstFileNameToken | Team.cs:31 | `FirstOrDefault`: none iff no token starts with `fileName=` ignoring case; otherwise one such token from the list |
| Teams.FirstFileNameTokenIsFirst | Team.cs:31 | the token found is the first one that starts with `fileName=` |
| Teams.QueryOfOneToken | Team.cs:30 | `?` followed by one clean token parses to exactly that token |
| Teams.FileNameRoundTrip | Team.cs:30-35 | the query `?fileName=<name>` yields `name` back for any name without `&` whose last character is neither white space nor `?`, and that name passes the blank check |
| Teams.TrimEntriesTrimsThenFilters | Team.cs:30 | `TrimEntries` is exactly: trim every piece of white space, in order, then drop the empty ones |
| Teams.FirstFileNameTokenSkipsEmpty | Team.cs:30-31 | dropping empty tokens does not change which token `FirstOrDefault` finds |
| Teams.FirstKeyedPieceWins | Team.cs:30-31 | of the `&`-separated pieces, the first whose trimmed form starts with `fileName=` gives the token found, whatever pieces without the key come before it |
| Teams.FileNameFromFirstKeyedPiece | Team.cs:30-31 | for a query with a piece that carries the key, the file name is what follows `fileName=` in the first piece of the split query whose trimmed form carries the key; `NoKeyedPieceNoFileName` covers queries without one |
| Teams.NoKeyedPieceNoFileName | Team.cs:30-31 | a query none of whose `&`-separated pieces, trimmed of white space, starts with `fileName=` ignoring case, such as `?a=1&b=2`, has no file name |
| Teams.QueryPieces | Team.cs:30 | `?` and pieces without `&` or `?`, joined with `&`, split back into exactly those pieces |
| Teams.KeyedToken | Team.cs:30-31 | `fileName=<name>` is its own trimmed form, carries the key, holds `name` after it, and has no `&` (nor `?` when `name` has none) |
| Teams.FileNameOfPieces | Team.cs:30-31 | in `?` and `&`-joined pieces, the first to carry the key is `fileName=<name>`: the file name is `name` |
| Teams.FileNameAmongParameters | Team.cs:30-31 | a query of many parameters, such as `?a=1&fileName=x&v=2`, names the model exactly `name` when the pieces before `fileName=<name>` do not carry the key, whatever follows |
| Teams.FileNameBeforeOtherParameter | Team.cs:30-31 | `?fileName=<name>&<other>`, such as `?fileName=x&v=2`, names the model `name`: what follows is not part of the name |
| Teams.HasFileName | Team.cs:32 | the `IsNullOrWhiteSpace` test; it has no contract of its own, and `Team.Decide` states that its failure gives 400 |
| Teams.AfterUpload | Team.cs:96-105 | the directory exists; the entry under the name is created or replaced by the bytes of the body that fit under 1 GiB (all of it when it fits); every other entry is unchanged |
| Teams.Upload | Team.cs:96-105 | with the copier as written: the store becomes `AfterUpload`; a 413 needs a body at least two bytes over 1 GiB; a body within 1 GiB plus one byte passes; a body at least two chunks over 1 GiB gets 413 |
| Teams.Download | Team.cs:107-118 | succeeds, with the stored bytes, iff the directory exists and holds the name; a missing name gives 404 with its message; a missing directory gives an I/O error, not 404 |
| Teams.DownloadAfterUpload | Team.cs:96-118 | after an upload the name gives back what fit under the limit (the whole body when it fits), and every other name gives what it gave with the directory present |
| Teams.HandlePut | Team.cs:37-43 | once authorized with a non-blank file name, `PUT` fails with the copier's exception or completes with success, and the store becomes `AfterUpload` |
| Teams.HandleGet | Team.cs:44-50 | once authorized with a non-blank file name, `GET` completes with the download's bytes or fails with its exception, and the store is unchanged |
| Teams.UnkeyedQueryRejected | Team.cs:30-35 | an authorized request whose query has no piece carrying the key, such as `?a=1&b=2`, fails with 400 "Missing or empty 'fileName' parameter" and leaves the store unchanged, whatever its method |
| Teams.ModelStore.UploadModel | Team.cs:96-105 | through the copier as written: the outcome is one `AsWrittenOutcome` allows for the bytes the request stream had left, and the new store and outcome are `Upload` of the old store, those bytes and that outcome |
| Teams.ModelStore.UploadModelFixed | Team.cs:96-105 | the intended variant, through the corrected copier: the store becomes `AfterUpload`, and the outcome is the 413 exactly when the body exceeds 1 GiB |
| Teams.ModelStore.DownloadModel | Team.cs:107-118 | the result is `Download` of the current store |
| Teams.Team.CheckAuthorization | Team.cs:59-72 | true iff an identity is present and both its name and password equal the team's exactly |
| Teams.Team.Decide | Team.cs:24-54 | 401 whenever authorization fails, before the query is read; then 400 when `fileName` is absent or blank, whatever the method; upload iff authorized, named and `PUT`; download iff authorized, named and `GET`; 405 when authorized and named with any other method; every rejection is 400, 401 or 405 |
| Teams.Team.Handle | Team.cs:18-57 | a rejection throws its exception and leaves the store unchanged; the store changes only on an upload; a completed request answers either success or the model's bytes |
| Teams.Team.HandleRequest | Team.cs:18-57 | for some outcome the copier as written allows, the result and the new store are `Handle` of the request, the old store and that outcome |
| Dispatcher.TeamPath | Program.cs:42 | `Url?.AbsolutePath.Trim('/')`; it has no contract of its own, and `ResolveTeam` and `PathNamesTeam` state what the trimmed path selects |
| Dispatcher.NamesTeam | Program.cs:43-44 | one rung of the ladder: the trimmed path is present, not blank and equal to the team's name ignoring case; it has no contract of its own, and `ResolveTeam`, `FindTeam` and `PathNamesTeam` characterise it |
| Dispatcher.NamesAtMostOneTeam | Program.cs:43-61 | no string equals two different team names ignoring case |
| Dispatcher.FindTeam | Program.cs:43-62 | the first rung from `k` on whose team the path names, or none iff no later rung matches |
| Dispatcher.ResolveTeam | Program.cs:42-62 | the index of a team the trimmed path names, the only one it names; none iff the path is absent, blank or names no team |
| Dispatcher.RouteRequest | Program.cs:21-75 | throttled iff the limiter said no; missing authorization iff let through with an absent or empty header; a team only when the path names it; invalid team only when it names none |
| Dispatcher.Render | Program.cs:77-101 | a completed request passes through; a listener exception gives its own code and message; any other exception gives 500 and its message |
| Dispatcher.Respond | Program.cs:14-103 | a denial gives 429 with "Rate limit exceeded" and changes nothing; a granted request with an absent or empty header is `Unhandled` with the 401 and changes nothing; a path naming no team gives 400 "Invalid team name" and changes nothing; every error status is one of 400, 401, 404, 405, 413, 429 and 500; no response is sent only for the unhandled 401; the store changes only on an upload by the team the path names |
| Dispatcher.TeamRequestReachesTeam | Program.cs:42-62 | a request with team `i`'s path and credentials is routed to team `i` and passes its authorization |
| Dispatcher.RouteToNamedTeam | Program.cs:35-62 | a granted request with a non-empty header goes to the team its path names |
| Dispatcher.PathNamesTeam | Program.cs:42-44 | the path `/<name>` names the team whose user name is `name` when `name` starts with no white space and neither starts nor ends with `/` |
| Dispatcher.RespondDelegates | Program.cs:46-61 | a request routed to a team gets that team's result, rendered, and that team's new store |
| Dispatcher.ModelsAreSharedAcrossTeams | Team.cs:99-111 | a model uploaded by one team within 1 GiB succeeds, and any other team downloads exactly those bytes under the same name |
| Dispatcher.OversizedUploadKeepsPrefix | Team.cs:101-103 | an upload at least two chunks over 1 GiB gets 413 whatever the chunking, and the store keeps its first 1 GiB under that name |
| Dispatcher.OneByteOverLimitUploadSucceeds | Team.cs:80-103 | as written, a `PUT` of 1 GiB and one byte is answered with success whatever the chunking, and the store keeps only the first 1 GiB, so the stored model differs from the body |
| Dispatcher.WrongCredentialsRejectedFirst | Team.cs:24-27 | with a header and a resolved team, credentials other than that team's give 401 before the query or method is looked at, and the store is unchanged |
| Dispatcher.Server.constructor | Program.cs:108 | one limiter, with capacity 100 and one token per 1000 ms, created full at start-up, and the store as given |
| Dispatcher.Server.ProcessRequest | Program.cs:14-103 | asks the shared limiter for exactly one token; for some outcome the copier as written allows, the response and new store are `Respond` of that verdict; keeps the invariant that the requests admitted so far are at most 100 plus one per whole second between start-up and the last refill |

## Left out

- `HttpListener`, the accept loop of `Main`, `new Task(...).Start()` and async/await: these are I/O and concurrency. Each request is a sequential step.
- The `lock` in `TokenBucket`: it only makes each call atomic, and calls are modelled as atomic steps.
- `DateTimeOffset.UtcNow` and the double `TotalMilliseconds`: time is an integer number of milliseconds passed in as `now`, and the refill quotient is integer division truncated toward zero.
- Overflow: `int` and `long` overflow of counts, times and sizes is not modelled, because the integers are unbounded.
- RateLimiting.TokenBucket.constructor: requires `refillRate > 0`. A zero or negative rate makes the source divide by zero (infinity or NaN) or count backwards in doubles, and floating point is not modelled. The server uses 1000.
- Culture-aware comparisons (`InvariantCulture`, `IgnoreCase`): approximated by ASCII case folding in `Text.Lower`, and so in `Text.EqualsIgnoreCase`, `Text.StartsWithIgnoreCase` and `Teams.IsFileNameToken`. White space needs no approximation: `Text.WhiteSpace` holds the characters `Char.IsWhiteSpace` accepts.
- Filesystem details: `Path.Combine` with rooted names or subdirectories, `File.Create`, `OpenRead`, `CopyToAsync`, and errors other than the missing directory. The directory is a map from name to bytes.
- Basic-auth decoding by `HttpListenerBasicIdentity`: the identity is an optional name and password pair. A null `context.User` (the `!` at Team.cs:61) is not modelled.
- Response fields, content types, encodings, `StreamWriter` writes and JSON escaping of the message: a response keeps only its status code and message, or the downloaded bytes.
- The 4096-byte buffer: each read returns a fresh sequence of bytes instead of filling a shared array.
- Teams.FileNameParameter: it has no contract of its own. It is characterised for every query by two lemmas: `FileNameFromFirstKeyedPiece` when some piece carries the key, `NoKeyedPieceNoFileName` when none does. For queries built from parameters, `FileNameOfPieces`, `FileNameAmongParameters` and `FileNameRoundTrip` apply.
- Text.TrimEntries: its own contract states only that the tokens are trimmed and non-empty; that they are the trimmed pieces, in order, without the empty ones, is `Teams.TrimEntriesTrimsThenFilters`.
- Streams.AsWrittenOutcome: for a body between 2 bytes and two 4096-byte chunks over the limit, the copier as written may pass or fail depending on how the reads fall. The model leaves that outcome open rather than fixing one chunking.
- Unhandled exceptions: after the unhandled 401 the process ends by default. The model does not capture the process ending; `Server.ProcessRequest` goes on serving later requests.
- Text.Strip: states the ends and membership, but not that the result is the exact middle slice of the input.

## Findings

| source | as written | input that shows it | evidently intended | confidence | as-written member | corrected member |
|---|---|---|---|---|---|---|
| Team.cs:80-93 | the loop condition reads a chunk before it tests `totalBytesRead < maxBytes`, so the read that ends the loop is thrown away, and the one-byte probe then finds nothing when those were the last bytes | a 3-byte body under a 2-byte limit (or a 1 GiB + 1 byte upload): accepted, and stored truncated without a 413 | a 413 whenever the body is longer than `maxBytes` | not executed | Streams.CopyStreamLimited, Streams.OneByteTooLongIsAccepted, Dispatcher.OneByteOverLimitUploadSucceeds | Streams.CopyStreamLimitedFixed, Teams.ModelStore.UploadModelFixed (the intended variant; the dispatcher follows the program as written) |
