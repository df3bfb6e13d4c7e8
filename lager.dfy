/** The two middlewares of middleware/Lager.js, `RequestLager` and
    `ResponseLager`, as state transitions over an abstract log store: a set
    of directories, a map from file path to the entries appended to it, the
    value held in `res.send`, and the trace of what the middlewares did, in
    order (entries appended, bodies handed to the framework's own send,
    calls of `next`). */
module LagerMiddleware {
  import opened LogPath

  datatype Option<T> = None | Some(value: T)

  /** A parsed JSON value, as `JSON.parse` yields and `JSON.stringify` takes. */
  datatype Json =
    | JNull
    | JBool(b: bool)
    | JNumber(n: int)
    | JString(s: string)
    | JArray(items: seq<Json>)
    | JObject(members: seq<(string, Json)>)

  /** The part of an Express request the middlewares read. */
  datatype Request = Request(verb: string, originalUrl: string, body: Json, headers: map<string, string>)

  /** One line of a log file: the object `lager` is given, before
      `JSON.stringify` and the trailing newline. */
  datatype Entry =
    | RequestEntry(timestamp: string, verb: string, url: string, body: Json, headers: map<string, string>)
    | ResponseEntry(timestamp: string, verb: string, url: string, data: Json)

  /** The value of `res.send`: the framework's own send, or an interceptor
      installed by `ResponseLager`, which closes over the log file it
      computed at install time and the send it replaced. */
  datatype Sender = Original | Interceptor(logFile: string, originalSend: Sender)

  /** What a middleware visibly does, in the order it does it. */
  datatype Effect =
    | Appended(file: string, entry: Entry)
    | Delivered(body: string)
    | NextCalled

  type Files = map<string, seq<Entry>>

  /** The entries of file `f`; a file never written to has none. */
  function Entries(files: Files, f: string): seq<Entry> {
    if f in files then files[f] else []
  }

  /** `fs.appendFile` on the abstract store: the file is created if absent
      and grows by exactly one entry at its end; no other file changes. */
  function Append(files: Files, f: string, e: Entry): (r: Files)
    ensures Entries(r, f) == Entries(files, f) + [e]
    ensures forall g :: g != f ==> Entries(r, g) == Entries(files, g)
    ensures r.Keys == files.Keys + {f}
  {
    files[f := Entries(files, f) + [e]]
  }

  /** The store after a trace of effects: each `Appended` effect appends. */
  function Replay(files: Files, effects: seq<Effect>): Files
    decreases |effects|
  {
    if effects == [] then files
    else
      var next := if effects[0].Appended? then Append(files, effects[0].file, effects[0].entry) else files;
      Replay(next, effects[1..])
  }

  /** Replaying one effect and then the rest is replaying them together. */
  lemma ReplayCons(files: Files, e: Effect, rest: seq<Effect>)
    ensures Replay(files, [e] + rest)
         == Replay(if e.Appended? then Append(files, e.file, e.entry) else files, rest)
  {
    assert ([e] + rest)[1..] == rest;
  }

  /** The entries a trace appends to file `f`, in order. */
  function AppendedTo(effects: seq<Effect>, f: string): seq<Entry> {
    if effects == [] then []
    else
      (if effects[0].Appended? && effects[0].file == f then [effects[0].entry] else [])
      + AppendedTo(effects[1..], f)
  }

  /** Sequential appends are kept whole and in call order: replaying a trace
      extends every file by exactly the entries the trace appends to it. */
  lemma {:induction false} ReplayEntries(files: Files, effects: seq<Effect>, f: string)
    ensures Entries(Replay(files, effects), f) == Entries(files, f) + AppendedTo(effects, f)
    decreases |effects|
  {
    if effects != [] {
      var e := effects[0];
      var next := if e.Appended? then Append(files, e.file, e.entry) else files;
      ReplayEntries(next, effects[1..], f);
    }
  }

  // ---------------------------------------------------------------------
  // Directories

  /** A directory and every ancestor `mkdir -p` creates for it: each prefix
      ending just before a separator. */
  function Ancestors(d: string): set<string> {
    {d} + set i | 0 < i < |d| && d[i] == '/' :: d[..i]
  }

  /** The directory set is a tree: every ancestor of a directory exists. */
  ghost predicate Closed(dirs: set<string>) {
    forall x :: x in dirs ==> Ancestors(x) <= dirs
  }

  /** `fs.mkdirSync(d, { recursive: true })` on the abstract store. */
  function MkdirP(dirs: set<string>, d: string): set<string> {
    dirs + Ancestors(d)
  }

  /** The ancestors of an ancestor of `d` are ancestors of `d`. */
  lemma AncestorsClosed(d: string)
    ensures Closed(Ancestors(d))
  {
    forall a | a in Ancestors(d) ensures Ancestors(a) <= Ancestors(d) {
      forall b | b in Ancestors(a) ensures b in Ancestors(d) {
        if b != a {
          var j :| 0 < j < |a| && a[j] == '/' && b == a[..j];
          if a != d {
            var i :| 0 < i < |d| && d[i] == '/' && a == d[..i];
            assert d[j] == '/' && d[..j] == b;
          }
        }
      }
    }
  }

  /** `mkdir -p` keeps the directory set a tree, and contains the requested
      directory and every directory there was before. */
  lemma MkdirPKeepsClosed(dirs: set<string>, d: string)
    requires Closed(dirs)
    ensures Closed(MkdirP(dirs, d))
    ensures d in MkdirP(dirs, d) && dirs <= MkdirP(dirs, d)
  {
    AncestorsClosed(d);
  }

  /** `mkdir -p` creates no more than it must: every tree holding the old
      directories and `d` holds the result. */
  lemma MkdirPLeast(dirs: set<string>, d: string, tree: set<string>)
    requires Closed(tree) && dirs <= tree && d in tree
    ensures MkdirP(dirs, d) <= tree
  {
  }

  /** Ensuring a directory twice is the same as ensuring it once. */
  lemma MkdirPIdempotent(dirs: set<string>, d: string)
    ensures MkdirP(MkdirP(dirs, d), d) == MkdirP(dirs, d)
  {
  }

  // ---------------------------------------------------------------------
  // The response interceptor

  /** How many interceptors are stacked on the framework's send. */
  function Layers(s: Sender): nat {
    match s
    case Original => 0
    case Interceptor(_, inner) => 1 + Layers(inner)
  }

  /** What one call `res.send(body)` does when `res.send` holds `s`,
      `JSON.parse(body)` gives `parsed` and the clock reads `now`: `None` when
      the call throws, otherwise the effects in order. */
  function SendOutcome(s: Sender, req: Request, body: string, now: string, parsed: Option<Json>): Option<seq<Effect>> {
    match s
    case Original => Some([Delivered(body)])
    case Interceptor(logFile, inner) =>
      if parsed.None? then None
      else
        match SendOutcome(inner, req, body, now, parsed)
        case None => None
        case Some(rest) =>
          Some([Appended(Collapse(logFile), ResponseEntry(now, req.verb, req.originalUrl, parsed.value))] + rest)
  }

  /** A send throws exactly when an interceptor is installed and the body
      does not parse; the framework's own send never throws. */
  lemma {:induction false} SendAbortsIff(s: Sender, req: Request, body: string, now: string, parsed: Option<Json>)
    ensures SendOutcome(s, req, body, now, parsed).None? <==> (s.Interceptor? && parsed.None?)
  {
    match s
    case Original =>
    case Interceptor(_, inner) =>
      SendAbortsIff(inner, req, body, now, parsed);
  }

  /** The files the interceptors of `s` append to, outermost first: each
      interceptor's `logFile` after the collapse in `lager`. */
  function LogFiles(s: Sender): (r: seq<string>)
    ensures |r| == Layers(s)
  {
    match s
    case Original => []
    case Interceptor(logFile, inner) => [Collapse(logFile)] + LogFiles(inner)
  }

  /** A send that does not throw appends one response entry per interceptor,
      to that interceptor's file, each carrying the parsed body, and then
      hands the identical body to the framework's send, once, as its last
      effect. */
  lemma {:induction false} SendOutcomeShape(s: Sender, req: Request, body: string, now: string, parsed: Option<Json>)
    requires SendOutcome(s, req, body, now, parsed).Some?
    ensures var effects := SendOutcome(s, req, body, now, parsed).value;
      && |effects| == Layers(s) + 1
      && effects[|effects| - 1] == Delivered(body)
      && forall i :: 0 <= i < |effects| - 1 ==>
           && effects[i].Appended?
           && effects[i].file == LogFiles(s)[i]
           && effects[i].entry == ResponseEntry(now, req.verb, req.originalUrl, parsed.value)
  {
    match s
    case Original =>
    case Interceptor(_, inner) =>
      SendAbortsIff(inner, req, body, now, parsed);
      SendOutcomeShape(inner, req, body, now, parsed);
  }

  /** One interceptor over the framework's send: the entry is appended to the
      interceptor's file first, then the body is sent unchanged. */
  lemma InterceptorThenSend(logFile: string, req: Request, body: string, now: string, data: Json)
    ensures SendOutcome(Interceptor(logFile, Original), req, body, now, Some(data))
         == Some([Appended(Collapse(logFile), ResponseEntry(now, req.verb, req.originalUrl, data)), Delivered(body)])
  {
    var head := Appended(Collapse(logFile), ResponseEntry(now, req.verb, req.originalUrl, data));
    assert SendOutcome(Original, req, body, now, Some(data)) == Some([Delivered(body)]);
    assert [head] + [Delivered(body)] == [head, Delivered(body)];
  }

  // ---------------------------------------------------------------------
  // The middlewares over the store

  /** The state the middlewares act on. `dirname` is the module's own
      directory (`__dirname`) and `parse` is `JSON.parse`, which fails with
      `None` where the original throws. */
  class Server {
    const dirname: string
    const parse: string -> Option<Json>
    var dirs: set<string>
    var files: Files
    var send: Sender
    var trace: seq<Effect>

    ghost predicate Valid()
      reads this
    {
      Closed(dirs)
    }

    constructor (dirname: string, parse: string -> Option<Json>)
      ensures Valid()
      ensures this.dirname == dirname && this.parse == parse
      ensures dirs == {} && files == map[] && send == Original && trace == []
    {
      this.dirname := dirname;
      this.parse := parse;
      dirs := {};
      files := map[];
      send := Original;
      trace := [];
    }

    /** `chkDir(d)`: `mkdir -p d`. */
    method ChkDir(d: string)
      requires Valid()
      modifies this
      ensures Valid()
      ensures dirs == MkdirP(old(dirs), d) && d in dirs
      ensures files == old(files) && send == old(send) && trace == old(trace)
    {
      MkdirPKeepsClosed(dirs, d);
      dirs := MkdirP(dirs, d);
    }

    /** `lager(logFile, logEntry)`: append the entry to the collapsed path. */
    method Lager(logFile: string, logEntry: Entry)
      requires Valid()
      modifies this
      ensures Valid()
      ensures files == Append(old(files), Collapse(logFile), logEntry)
      ensures trace == old(trace) + [Appended(Collapse(logFile), logEntry)]
      ensures dirs == old(dirs) && send == old(send)
    {
      var f := Collapse(logFile);
      files := Append(files, f, logEntry);
      trace := trace + [Appended(f, logEntry)];
    }

    /** The continuation `next()`; what the rest of the chain does is the
      subject of later calls on this object. */
    method Next()
      modifies this
      ensures trace == old(trace) + [NextCalled]
      ensures dirs == old(dirs) && files == old(files) && send == old(send)
    {
      trace := trace + [NextCalled];
    }

    /** The framework starts a new response: its `res.send` is the framework's
        own send again, while directories, files and the trace persist. */
    method NewResponse()
      requires Valid()
      modifies this
      ensures Valid()
      ensures send == Original
      ensures dirs == old(dirs) && files == old(files) && trace == old(trace)
    {
      send := Original;
    }

    /** The middleware returned by `RequestLager(routeName)`, invoked on `req`
        at time `now`: ensure the directory, append one request entry, call
        `next` once. */
    method RequestLager(routeName: string, req: Request, now: string)
      requires Valid()
      modifies this
      ensures Valid()
      ensures dirs == MkdirP(old(dirs), LogDir(dirname, routeName, req.originalUrl))
      ensures files == Append(old(files), LogFilePath(dirname, routeName, req.originalUrl, req.verb, "requests"),
                              RequestEntry(now, req.verb, req.originalUrl, req.body, req.headers))
      ensures trace == old(trace) + [
        Appended(LogFilePath(dirname, routeName, req.originalUrl, req.verb, "requests"),
                 RequestEntry(now, req.verb, req.originalUrl, req.body, req.headers)),
        NextCalled]
      ensures send == old(send)
    {
      var logDir := Join(dirname, LogDirName(routeName, req.originalUrl));
      ChkDir(logDir);
      var logFile := Join(logDir, LogFileName(req.verb, "requests"));
      var logEntry := RequestEntry(now, req.verb, req.originalUrl, req.body, req.headers);
      Lager(logFile, logEntry);
      Next();
    }

    /** The middleware returned by `ResponseLager(routeName)`, invoked on
        `req`: ensure the directory, replace `res.send` by an interceptor
        bound to the current send and to the file computed now, call `next`
        once. Nothing is appended and nothing is sent. */
    method ResponseLager(routeName: string, req: Request)
      requires Valid()
      modifies this
      ensures Valid()
      ensures send == Interceptor(RawLogFile(dirname, routeName, req.originalUrl, req.verb, "responses"), old(send))
      ensures dirs == MkdirP(old(dirs), LogDir(dirname, routeName, req.originalUrl))
      ensures files == old(files)
      ensures trace == old(trace) + [NextCalled]
    {
      var originalSend := send;
      var logDir := Join(dirname, LogDirName(routeName, req.originalUrl));
      ChkDir(logDir);
      var logFile := Join(logDir, LogFileName(req.verb, "responses"));
      send := Interceptor(logFile, originalSend);
      Next();
    }

    /** Calling the send `s` with `body`; `req` is the request as it stands
        at the time of the call. `ok` is false when the call throws. */
    method Invoke(s: Sender, req: Request, body: string, now: string) returns (ok: bool)
      requires Valid()
      modifies this
      decreases s
      ensures Valid()
      ensures dirs == old(dirs) && send == old(send)
      ensures ok == SendOutcome(s, req, body, now, parse(body)).Some?
      ensures !ok ==> files == old(files) && trace == old(trace)
      ensures ok ==> var effects := SendOutcome(s, req, body, now, parse(body)).value;
        files == Replay(old(files), effects) && trace == old(trace) + effects
    {
      match s {
        case Original =>
          trace := trace + [Delivered(body)];
          ok := true;
        case Interceptor(logFile, originalSend) =>
          var data := parse(body);
          if data.None? {
            ok := false;
            return;
          }
          var logEntry := ResponseEntry(now, req.verb, req.originalUrl, data.value);
          ghost var filesBefore := files;
          ghost var traceBefore := trace;
          Lager(logFile, logEntry);
          SendAbortsIff(originalSend, req, body, now, data);
          ok := Invoke(originalSend, req, body, now);
          ghost var head := Appended(Collapse(logFile), logEntry);
          ghost var rest := SendOutcome(originalSend, req, body, now, data).value;
          assert SendOutcome(s, req, body, now, data) == Some([head] + rest);
          ReplayCons(filesBefore, head, rest);
          ghost var effects := [head] + rest;
          assert SendOutcome(s, req, body, now, parse(body)).value == effects;
          ConcatAssoc(traceBefore, [head], rest);
      }
    }

    /** `res.send(body)` as the handler calls it. */
    method Send(req: Request, body: string, now: string) returns (ok: bool)
      requires Valid()
      modifies this
      ensures Valid()
      ensures dirs == old(dirs) && send == old(send)
      ensures ok == SendOutcome(old(send), req, body, now, parse(body)).Some?
      ensures !ok ==> files == old(files) && trace == old(trace)
      ensures ok ==> var effects := SendOutcome(old(send), req, body, now, parse(body)).value;
        files == Replay(old(files), effects) && trace == old(trace) + effects
    {
      ok := Invoke(send, req, body, now);
    }
  }

  /** One logged exchange in the order the middlewares are deployed:
      `RequestLager` first, `ResponseLager` last, then the handler sends
      `body`. The request file gets the request entry, the response file gets
      the response entry when the body parses, no other file changes, the
      log directory is ensured, the interceptor stays installed, and the body
      reaches the framework's send unchanged. */
  method Exchange(server: Server, routeName: string, req: Request, body: string, t0: string, t1: string)
    returns (ok: bool)
    requires server.Valid() && server.send == Original
    modifies server
    ensures server.Valid()
    ensures ok <==> server.parse(body).Some?
    ensures server.dirs == MkdirP(old(server.dirs), LogDir(server.dirname, routeName, req.originalUrl))
    ensures server.send == Interceptor(RawLogFile(server.dirname, routeName, req.originalUrl, req.verb, "responses"), Original)
    ensures forall g ::
              g != LogFilePath(server.dirname, routeName, req.originalUrl, req.verb, "requests")
              && g != LogFilePath(server.dirname, routeName, req.originalUrl, req.verb, "responses")
              ==> Entries(server.files, g) == Entries(old(server.files), g)
    ensures var reqFile := LogFilePath(server.dirname, routeName, req.originalUrl, req.verb, "requests");
      var respFile := LogFilePath(server.dirname, routeName, req.originalUrl, req.verb, "responses");
      && reqFile != respFile
      && Entries(server.files, reqFile)
         == Entries(old(server.files), reqFile) + [RequestEntry(t0, req.verb, req.originalUrl, req.body, req.headers)]
      && Entries(server.files, respFile)
         == Entries(old(server.files), respFile)
            + (if ok then [ResponseEntry(t1, req.verb, req.originalUrl, server.parse(body).value)] else [])
      && server.trace == old(server.trace)
         + [Appended(reqFile, RequestEntry(t0, req.verb, req.originalUrl, req.body, req.headers)), NextCalled, NextCalled]
         + (if ok then [Appended(respFile, ResponseEntry(t1, req.verb, req.originalUrl, server.parse(body).value)), Delivered(body)] else [])
  {
    ghost var dir := server.dirname;
    ghost var reqFile := LogFilePath(dir, routeName, req.originalUrl, req.verb, "requests");
    ghost var respFile := LogFilePath(dir, routeName, req.originalUrl, req.verb, "responses");
    ghost var raw := RawLogFile(dir, routeName, req.originalUrl, req.verb, "responses");
    ghost var reqEntry := RequestEntry(t0, req.verb, req.originalUrl, req.body, req.headers);
    LogFilePathsDistinct(dir, routeName, req.originalUrl, req.verb, dir, routeName, req.originalUrl, req.verb);
    ghost var start := server.files;
    ghost var startTrace := server.trace;

    server.RequestLager(routeName, req, t0);
    ghost var middle := server.files;
    assert Entries(middle, reqFile) == Entries(start, reqFile) + [reqEntry];
    assert Entries(middle, respFile) == Entries(start, respFile);

    server.ResponseLager(routeName, req);
    assert server.send == Interceptor(raw, Original);
    assert server.files == middle;
    assert server.trace == startTrace + [Appended(reqFile, reqEntry), NextCalled, NextCalled];

    MkdirPIdempotent(old(server.dirs), LogDir(dir, routeName, req.originalUrl));
    ok := server.Send(req, body, t1);
    ghost var parsed := server.parse(body);
    SendAbortsIff(Interceptor(raw, Original), req, body, t1, parsed);
    if ok {
      ghost var respEntry := ResponseEntry(t1, req.verb, req.originalUrl, parsed.value);
      InterceptorThenSend(raw, req, body, t1, parsed.value);
      ghost var effects := [Appended(respFile, respEntry), Delivered(body)];
      assert server.files == Replay(middle, effects);
      ReplayEntries(middle, effects, reqFile);
      ReplayEntries(middle, effects, respFile);
      assert AppendedTo(effects, reqFile) == [] by {
        assert AppendedTo(effects[1..], reqFile) == [];
      }
      assert AppendedTo(effects, respFile) == [respEntry] by {
        assert AppendedTo(effects[1..], respFile) == [];
      }
      forall g | g != reqFile && g != respFile
        ensures Entries(server.files, g) == Entries(start, g)
      {
        ReplayEntries(middle, effects, g);
        assert AppendedTo(effects[1..], g) == [];
      }
    }
  }
}
