# Lager: request/response audit logging, modelled in Dafny

`middleware/Lager.js` is an Express middleware pair that writes every
request and every response of a route to newline-delimited JSON files laid
out as `.logs/<routeName>/<endpoint>/<method>_<requests|responses>.json`.
`RequestLager(routeName)` logs the incoming request and calls `next`;
`ResponseLager(routeName)` replaces `res.send` with an interceptor that logs
the body the handler sends and then forwards that same body to the original
`send`.

The project has two modules.

- `LogPath` (`log_path.dfy`) holds the pure path derivation. `Collapse` is
  `replaceAll('//', '/')`, written as one recursive left-to-right pass.
  `PathBeforeQuery` is `split('?')[0]`. `ToLower` is ASCII `toLowerCase`.
  `LogDirName` and `LogFileName` are the two template-string helpers, and
  `LogFilePath` is the path `lager` finally appends to. The lemmas state what
  the single collapse pass does and does not guarantee. It never lengthens a
  string. It changes exactly the strings that contain `"//"`. It turns a run
  of k slashes into ⌈k/2⌉ slashes, so `"///"` leaves `"//"`. It leaves no
  `"//"` exactly when the input has no `"///"`. It removes nothing but
  slashes. The lemmas also show that the query string never reaches the
  directory, that every directory name starts with `"../.logs/"`, that file
  names ignore the case of the method, and that request and response files
  never coincide.
- `LagerMiddleware` (`lager.dfy`) holds the effects. The class `Server` has
  the directory set, the map from file path to appended entries, the current
  value of `res.send`, and a trace of visible effects in order. The effects
  are `Appended`, `Delivered` (the original send received a body) and
  `NextCalled`. The closure that `ResponseLager` stores in `res.send` is the
  datatype value `Interceptor(logFile, originalSend)`. It captures the log
  file computed at install time and the send it replaced. Calling it
  dispatches through that chain. The pure function `SendOutcome` specifies
  what one `res.send(body)` does. The methods `ChkDir`, `Lager`,
  `RequestLager`, `ResponseLager`, `Invoke` and `Send` are proved against
  `MkdirP`, `Append`, `Replay` and `SendOutcome`. `Exchange` runs one request
  through both middlewares in their deployed order.

Inputs that the source takes from its environment are parameters here:

- the clock (`new Date().toISOString()`) is a `now` string passed to each call;
- `__dirname` is the constant `Server.dirname`;
- `JSON.parse` is the constant `Server.parse`, which returns `None` where the
  original throws.

The interceptor reads `req.method` and `req.originalUrl` when it runs, not
when it is installed (source lines 79-80). So `Send` receives the request as
it stands at send time, and only the file name is fixed at install time.

Two facts about the code shape what the lemmas say.

- `logDirName` (line 28) makes a single `replaceAll('//', '/')` pass. Its
  own return value therefore still holds `"//"` wherever the input has
  `"///"` (`CollapseNoDoubleIff`, `CollapseTripleToDouble`). In the program
  that value then goes through `path.join` (lines 53, 55, 73, 75), which
  removes repeated separators. So no directory given to `mkdirSync` and no
  file given to `appendFile` contains `"//"`. The model's `Join` is plain
  concatenation, so in the model the residue survives into `LogDir`. The
  collapse inside `lager` (line 43) is a second pass over the joined name, so
  `LogFilePath` keeps a `"//"` only where `RawLogFile` holds a `"///"`
  (`CollapseNoDoubleIff` again). When `LogDir` followed by `/` holds no
  `"//"`, the file `lager` appends to lies directly inside the directory the
  middleware ensured (`LogFilePathInLogDir`).
- The callback given to `mkdirSync` (lines 33-35) is never called, because
  `mkdirSync` takes no callback and throws on failure. That callback is not
  modelled.

The route name and the URL are joined with one `/`, so two different routes
can share a directory: route `a/b` serving `/c` and route `a` serving `/b/c`
both log under `../.logs/a/b/c` (`RouteAndPathShareDir`). On one route and
URL, two methods share a file exactly when they differ only in letter case
(`LogFilePathMethodIff`).

One `Server` object stands for the process-wide directories and files together
with the `res.send` of the response being handled. `NewResponse` starts the
next response with the framework's own send.

## Model

| member | source | states |
|---|---|---|
| `LogPath.Collapse` | middleware/Lager.js:28 | the `replaceAll('//','/')` pass never makes a string longer |
| `LogPath.CollapseFixedIff` | middleware/Lager.js:28 | the pass leaves a string unchanged if and only if it contains no `"//"` |
| `LogPath.CollapseShrinks` | middleware/Lager.js:28 | a string containing `"//"` always gets strictly shorter |
| `LogPath.CollapseHead` | middleware/Lager.js:28 | the result is empty only for empty input, and starts with `/` exactly when the input does |
| `LogPath.CollapseRun` | middleware/Lager.js:28 | a run of k slashes followed by a non-slash becomes a run of ⌈k/2⌉ slashes, and the rest is collapsed on its own |
| `LogPath.CollapseTripleToDouble` | middleware/Lager.js:28 | `"///"` becomes `"//"`, and a second pass would give `"/"`, so the pass is not a fixpoint |
| `LogPath.CollapseNoDoubleIff` | middleware/Lager.js:28 | after one pass no `"//"` remains if and only if the input has no `"///"` |
| `LogPath.CollapseKeepsNonSlashes` | middleware/Lager.js:28 | the pass removes only slashes: the other characters survive, in order |
| `LogPath.CollapseMembership` | middleware/Lager.js:28 | any character other than `/` is in the output exactly when it is in the input |
| `LogPath.CollapsePrefix` | middleware/Lager.js:28 | a prefix with no `"//"` that does not end in `/` passes through the pass untouched |
| `LogPath.CollapseSuffix` | middleware/Lager.js:43 | a suffix with no `/` (such as `_requests.json`) passes through untouched |
| `LogPath.LogDirName` | middleware/Lager.js:28 | computes `Collapse("../.logs/" + routeName + "/" + PathBeforeQuery(originalUrl))` |
| `LogPath.LogFileName` | middleware/Lager.js:39 | computes `ToLower(method) + "_" + r + ".json"` |
| `LogPath.Join` | middleware/Lager.js:53 | `path.join` as `a + "/" + b`, without Node's normalisation |
| `LogPath.LogDir` | middleware/Lager.js:53 | the directory a middleware ensures: `Join(__dirname, LogDirName(routeName, originalUrl))` (also line 73) |
| `LogPath.RawLogFile` | middleware/Lager.js:55 | the file name a middleware computes: `Join(LogDir(...), LogFileName(method, r))` (also line 75) |
| `LogPath.LogFilePath` | middleware/Lager.js:43 | the file `lager` appends to: `Collapse(RawLogFile(...))` |
| `LogPath.LogFilePathInLogDir` | middleware/Lager.js:53-55 | when the ensured directory followed by `/` holds no `"//"`, the collapsed file is that directory, `/` and the file name, so it lies inside the directory `chkDir` created |
| `LogPath.LogFilePathMethodIff` | middleware/Lager.js:53-55 | on one route and URL, two methods without `/` log to the same file if and only if they differ only in letter case |
| `LogPath.MethodWithSlashesCollide` | middleware/Lager.js:43 | the `/`-free condition above is needed: the collapse maps `x/a//b_requests.json` and `x/a/b_requests.json` to one file |
| `LogPath.RouteAndPathShareDir` | middleware/Lager.js:28 | route `a/b` with URL `/c` and route `a` with URL `/b/c` both give the directory `../.logs/a/b/c` |
| `LogPath.PathBeforeQuery` | middleware/Lager.js:28 | `split('?')[0]` is a prefix of the URL, contains no `?`, and stops only at a `?` or at the end |
| `LogPath.PathBeforeQueryOfPath` | middleware/Lager.js:28 | a URL without `?` is returned whole |
| `LogPath.PathBeforeQueryOfSplit` | middleware/Lager.js:28 | for a path without `?`, `path + "?" + query` gives back exactly the path |
| `LogPath.LogDirNameIgnoresQuery` | middleware/Lager.js:28 | adding any query to a query-free path leaves the directory unchanged |
| `LogPath.LogDirNameHasNoQuery` | middleware/Lager.js:28 | when the route name has no `?`, the directory name has none, so nothing from the query appears |
| `LogPath.LogDirNameStartsWithRoot` | middleware/Lager.js:28 | every directory name starts with `"../.logs/"` |
| `LogPath.ToLower` | middleware/Lager.js:39 | `toLowerCase` keeps the length and lowercases each ASCII letter in place |
| `LogPath.LogFileNameCaseIff` | middleware/Lager.js:39 | two methods give the same file name if and only if they differ only in letter case |
| `LogPath.LogFileNameIsJson` | middleware/Lager.js:39 | every file name ends in `.json` |
| `LogPath.LogFileNamesDistinct` | middleware/Lager.js:39 | a `requests` name never equals a `responses` name, whatever the two methods |
| `LogPath.LogFilePathsDistinct` | middleware/Lager.js:53-75 | after the final collapse, the request log path and the response log path never coincide, for any bases, routes, URLs and methods |
| `LogPath.LogFilePathCaseInsensitive` | middleware/Lager.js:53-55 | methods that differ only in case log to the same file |
| `LagerMiddleware.Replay` | middleware/Lager.js:43 | the files after a sequence of effects: each `Appended(f, e)` appends `e` to `f` in order; other effects change no file |
| `LagerMiddleware.Append` | middleware/Lager.js:43 | an append creates the file if it is absent and adds exactly one entry at its end; no other file changes |
| `LagerMiddleware.ReplayEntries` | middleware/Lager.js:43 | after N sequential appends, each file holds its old entries followed by exactly the entries appended to it, in call order |
| `LagerMiddleware.Ancestors` | middleware/Lager.js:31-33 | the directories `mkdir -p d` needs: every non-empty prefix of `d` that ends just before a `/`, and `d` itself |
| `LagerMiddleware.MkdirP` | middleware/Lager.js:31-33 | `mkdir -p d`: the old directories together with `Ancestors(d)` |
| `LagerMiddleware.AncestorsClosed` | middleware/Lager.js:31-33 | the prefixes `mkdir -p` creates for a directory form a tree, so each ancestor's ancestors are included |
| `LagerMiddleware.MkdirPKeepsClosed` | middleware/Lager.js:31-33 | `mkdir -p` keeps the directory set a tree, keeps every existing directory, and adds the requested one |
| `LagerMiddleware.MkdirPLeast` | middleware/Lager.js:31-33 | `mkdir -p` creates nothing beyond what every tree containing the old directories and the new one must contain |
| `LagerMiddleware.MkdirPIdempotent` | middleware/Lager.js:31-33 | ensuring a directory twice is the same as ensuring it once |
| `LagerMiddleware.SendOutcome` | middleware/Lager.js:76-85 | what `res.send(body)` does through a chain of sends: `None` when an interceptor's `JSON.parse` throws, otherwise each interceptor's response entry appended in chain order, followed by the delivery of the body to the framework's send |
| `LagerMiddleware.SendAbortsIff` | middleware/Lager.js:76-85 | a send throws if and only if an interceptor is installed and the body does not parse |
| `LagerMiddleware.LogFiles` | middleware/Lager.js:75-83 | the files a chain of interceptors appends to, outermost first, one per interceptor: each one's `logFile` after the collapse in `lager` |
| `LagerMiddleware.SendOutcomeShape` | middleware/Lager.js:76-85 | a send that does not throw appends one entry per interceptor, to that interceptor's collapsed `logFile` in chain order, each holding the parsed body, and its last effect hands the identical body to the original send, exactly once |
| `LagerMiddleware.InterceptorThenSend` | middleware/Lager.js:76-85 | a single interceptor first appends the response entry to its file, then delivers the body unchanged |
| `LagerMiddleware.Server.ChkDir` | middleware/Lager.js:32-36 | the directory set becomes `MkdirP` of the old one and stays a tree; files, `res.send` and the trace are unchanged |
| `LagerMiddleware.Server.Lager` | middleware/Lager.js:42-46 | appends the entry to the collapsed path and records that append; nothing else changes |
| `LagerMiddleware.Server.Next` | middleware/Lager.js:64 | records one call of the continuation and changes nothing else |
| `LagerMiddleware.Server.NewResponse` | middleware/Lager.js:72 | a new response starts with the framework's own `res.send`, the one line 72 binds; directories, files and the trace persist |
| `LagerMiddleware.Server.RequestLager` | middleware/Lager.js:51-66 | ensures the log directory, appends exactly one request entry to `<dir>/<lower(method)>_requests.json` after collapse, then calls `next` once; no other file and not `res.send` changes |
| `LagerMiddleware.Server.ResponseLager` | middleware/Lager.js:70-88 | ensures the directory and replaces `res.send` with an interceptor bound to the old send and the file computed now; appends nothing, sends nothing, calls `next` once |
| `LagerMiddleware.Server.Invoke` | middleware/Lager.js:76-85 | calling a send chain has exactly the effects `SendOutcome` gives, or none at all when it throws |
| `LagerMiddleware.Server.Send` | middleware/Lager.js:76-85 | `res.send(body)` has the effects `SendOutcome` gives for the installed send, and never changes `res.send` or the directories |
| `LagerMiddleware.Exchange` | middleware/Lager.js:51-88 | in deployment order, the request file gains the request entry and the response file gains the response entry when the body parses; the two files differ and no other file changes; the directories become `MkdirP` of the old set and the log directory; `res.send` ends as the interceptor bound to the response file and the framework's send; the trace shows append, next, next, append, deliver |

## Left out

- Real filesystem calls (`fs.mkdirSync`, `fs.appendFile`) are replaced by a directory set and a path→entries map. Append failures and their `console.error` diagnostics are not modelled: every append succeeds.
- A directory-creation error that `mkdirSync` throws is not modelled. The error callback at lines 33-34 is never invoked, and it names an undefined `logDir`.
- The asynchronous, unawaited completion of `fs.appendFile` is not modelled, nor the interleaving of concurrent writers. An append takes effect at the point where it is issued.
- `path.join`, `__dirname` and `fileURLToPath`: the join is plain concatenation with one `/`. The normalisation of `..`, `.` and repeated separators that Node's `path.join` performs is not modelled. Paths are compared as plain strings, so `a/b` and `a/b/` are different directories here.
- `LogFilePathInLogDir` holds only when `LogDir` followed by `/` has no `"//"`. Outside that condition the model's file, after the second collapse, can lie outside the directory `ChkDir` created (with base `d`, route `r` and URL `//foo`, the directory is `d/../.logs/r//foo` and the file is `d/../.logs/r/foo/get_requests.json`). In the program, `path.join` normalises both paths, so the file is always inside it.
- `JSON.stringify` and `JSON.parse`: a log line is kept as the record value before serialisation. Parsing is an opaque function that may fail. A body that is not a string, which `JSON.parse` would coerce first, is not modelled.
- Timestamps are inputs. Each interceptor in a stack of several reads the same `now`.
- `toLowerCase` is modelled for ASCII only.
- `Json` numbers are integers (`JNumber(n: int)`), so a parsed body such as `1.5` cannot be represented; no proof depends on number values because parsing is an opaque input.
- The framework's own `send` is opaque: it records the body it receives. Express's re-entrant `send` for object bodies is not modelled.
- Return values of `send` are not modelled. The interceptor installed at lines 76-85 returns nothing, where the framework's `send` returns `res` for chaining, so after `ResponseLager` has run, `res.send(...)`, and `res.json(...)` built on it, return `undefined`, and chaining on their result breaks.
- What the rest of the middleware chain does after `next()` is not modelled. The call itself is recorded, and later calls on `Server` model what follows.
