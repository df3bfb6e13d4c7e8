/** Log-path derivation of the audit logger: the string functions behind
    `logDirName`, `logFileName` and the slash collapse applied by `lager`
    (middleware/Lager.js). Every function here is total. */
module LogPath {

  /** The literal every log directory name starts with. */
  const LOG_ROOT: string := "../.logs/"

  /** `s.replaceAll('//', '/')`: one left-to-right scan that replaces each
      non-overlapping "//" it meets by a single "/". */
  function Collapse(s: string): (r: string)
    ensures |r| <= |s|
  {
    if |s| >= 2 && s[0] == '/' && s[1] == '/' then "/" + Collapse(s[2..])
    else if s == [] then []
    else [s[0]] + Collapse(s[1..])
  }

  /** Two adjacent separators somewhere in `s`. */
  predicate HasDoubleSlash(s: string) {
    exists i | 0 <= i < |s| - 1 :: s[i] == '/' && s[i + 1] == '/'
  }

  /** Three adjacent separators somewhere in `s`. */
  predicate HasTripleSlash(s: string) {
    exists i | 0 <= i < |s| - 2 :: s[i] == '/' && s[i + 1] == '/' && s[i + 2] == '/'
  }

  /** A run of `k` separators. */
  function Slashes(k: nat): string {
    if k == 0 then [] else "/" + Slashes(k - 1)
  }

  /** `s` with every separator removed. */
  function NonSlashes(s: string): string {
    if s == [] then [] else (if s[0] == '/' then [] else [s[0]]) + NonSlashes(s[1..])
  }

  /** `url.split('?')[0]`: the part of the URL before its first '?', or all
      of it when it has none. */
  function PathBeforeQuery(url: string): (p: string)
    ensures p <= url
    ensures '?' !in p
    ensures |p| < |url| ==> url[|p|] == '?'
  {
    if url == [] || url[0] == '?' then [] else [url[0]] + PathBeforeQuery(url[1..])
  }

  /** `toLowerCase` on one character; HTTP verb names are ASCII. */
  function LowerChar(c: char): char {
    if 'A' <= c <= 'Z' then (c as int + 32) as char else c
  }

  /** `toLowerCase` on a string, character by character. */
  function ToLower(s: string): (r: string)
    ensures |r| == |s|
    ensures forall i :: 0 <= i < |s| ==> r[i] == LowerChar(s[i])
  {
    if s == [] then [] else [LowerChar(s[0])] + ToLower(s[1..])
  }

  /** Two verb names that `toLowerCase` cannot tell apart. */
  predicate SameIgnoringCase(m1: string, m2: string) {
    |m1| == |m2| && forall i :: 0 <= i < |m1| ==> LowerChar(m1[i]) == LowerChar(m2[i])
  }

  /** `logDirName(routeName, originalUrl)` (middleware/Lager.js:28). */
  function LogDirName(routeName: string, originalUrl: string): string {
    Collapse(LOG_ROOT + routeName + "/" + PathBeforeQuery(originalUrl))
  }

  /** `logFileName(verb, r)` (middleware/Lager.js:39). */
  function LogFileName(verb: string, r: string): string {
    ToLower(verb) + "_" + r + ".json"
  }

  /** `path.join`, taken as plain concatenation with one separator; the
      normalisation Node's `path.join` performs is not modelled. */
  function Join(a: string, b: string): string {
    a + "/" + b
  }

  /** The directory a middleware ensures: `path.join(__dirname, logDirName(...))`. */
  function LogDir(base: string, routeName: string, originalUrl: string): string {
    Join(base, LogDirName(routeName, originalUrl))
  }

  /** The file name a middleware computes, before `lager` collapses it. */
  function RawLogFile(base: string, routeName: string, originalUrl: string, verb: string, r: string): string {
    Join(LogDir(base, routeName, originalUrl), LogFileName(verb, r))
  }

  /** The file `lager` appends to: the computed name after its own collapse
      pass (middleware/Lager.js:43). */
  function LogFilePath(base: string, routeName: string, originalUrl: string, verb: string, r: string): string {
    Collapse(RawLogFile(base, routeName, originalUrl, verb, r))
  }

  // ---------------------------------------------------------------------
  // The slash collapse

  /** A string with no "//" is left as it is, and only such a string is. */
  lemma {:induction false} CollapseFixedIff(s: string)
    ensures Collapse(s) == s <==> !HasDoubleSlash(s)
  {
    if HasDoubleSlash(s) {
      CollapseShrinks(s);
    } else {
      CollapseNoDoubleUnchanged(s);
    }
  }

  lemma {:induction false} CollapseNoDoubleUnchanged(s: string)
    requires !HasDoubleSlash(s)
    ensures Collapse(s) == s
  {
    if s != [] {
      assert !(|s| >= 2 && s[0] == '/' && s[1] == '/');
      assert !HasDoubleSlash(s[1..]) by {
        forall i | 0 <= i < |s[1..]| - 1
          ensures !(s[1..][i] == '/' && s[1..][i + 1] == '/')
        {
          assert s[1..][i] == s[i + 1] && s[1..][i + 1] == s[i + 2];
        }
      }
      CollapseNoDoubleUnchanged(s[1..]);
    }
  }

  /** A string that holds a "//" gets strictly shorter. */
  lemma {:induction false} CollapseShrinks(s: string)
    requires HasDoubleSlash(s)
    ensures |Collapse(s)| < |s|
  {
    if !(s[0] == '/' && s[1] == '/') {
      var i :| 0 <= i < |s| - 1 && s[i] == '/' && s[i + 1] == '/';
      assert s[1..][i - 1] == s[i] && s[1..][i] == s[i + 1];
      CollapseShrinks(s[1..]);
    }
  }

  /** The first character survives the collapse: the result is empty
      exactly when the input is, and starts with a separator exactly when
      the input does. */
  lemma CollapseHead(s: string)
    ensures Collapse(s) == [] <==> s == []
    ensures s != [] ==> (Collapse(s)[0] == '/' <==> s[0] == '/')
  {
  }

  /** A run of `k` separators followed by something else becomes a run of
      ⌈k/2⌉ separators. */
  lemma {:induction false} CollapseRun(k: nat, rest: string)
    requires rest == [] || rest[0] != '/'
    ensures Collapse(Slashes(k) + rest) == Slashes((k + 1) / 2) + Collapse(rest)
  {
    var s := Slashes(k) + rest;
    if k == 0 {
      assert s == rest;
    } else if k == 1 {
      assert Slashes(1) == "/";
      ConcatTail(Slashes(1), rest, 1);
      assert s[0] == '/' && s[1..] == rest;
      assert |s| >= 2 ==> s[1] == rest[0];
      CollapseSingleStep(s);
      CollapseOfEqual(s[1..], rest);
    } else {
      SlashesSplit(k);
      ConcatTail(Slashes(k), rest, 2);
      assert s[0] == '/' && s[1] == '/';
      CollapseDoubleStep(s);
      CollapseOfEqual(s[2..], Slashes(k - 2) + rest);
      CollapseRun(k - 2, rest);
      assert Slashes((k + 1) / 2) == "/" + Slashes((k - 1) / 2);
      ConcatAssoc("/", Slashes((k - 1) / 2), Collapse(rest));
    }
  }

  lemma SlashesSplit(k: nat)
    requires k >= 2
    ensures Slashes(k) == "//" + Slashes(k - 2) && Slashes(k)[2..] == Slashes(k - 2)
  {
    assert Slashes(k) == "/" + ("/" + Slashes(k - 2));
  }

  /** The pass is not a fixpoint: "///" becomes "//", which a second pass
      would shorten again. */
  lemma CollapseTripleToDouble()
    ensures Collapse("///") == "//"
    ensures Collapse(Collapse("///")) == "/"
  {
    CollapseRun(3, []);
    CollapseRun(2, []);
  }

  /** After one pass no "//" is left exactly when the input had no "///". */
  lemma {:induction false} CollapseNoDoubleIff(s: string)
    ensures !HasDoubleSlash(Collapse(s)) <==> !HasTripleSlash(s)
  {
    if s == [] {
    } else if |s| >= 2 && s[0] == '/' && s[1] == '/' {
      var t := s[2..];
      CollapseNoDoubleIff(t);
      CollapseHead(t);
      var r := Collapse(s);
      assert r == "/" + Collapse(t);
      TripleSlashAfterTwo(s);
      DoubleSlashAfterOne(r);
    } else {
      var t := s[1..];
      CollapseNoDoubleIff(t);
      CollapseHead(t);
      var r := Collapse(s);
      assert r == [s[0]] + Collapse(t);
      TripleSlashAfterOne(s);
      DoubleSlashAfterOne(r);
    }
  }

  lemma DoubleSlashAfterOne(s: string)
    requires s != []
    ensures HasDoubleSlash(s) <==>
      (|s| >= 2 && s[0] == '/' && s[1] == '/') || HasDoubleSlash(s[1..])
  {
    if HasDoubleSlash(s) && !(|s| >= 2 && s[0] == '/' && s[1] == '/') {
      var i :| 0 <= i < |s| - 1 && s[i] == '/' && s[i + 1] == '/';
      assert s[1..][i - 1] == s[i] && s[1..][i] == s[i + 1];
    }
    if HasDoubleSlash(s[1..]) {
      var i :| 0 <= i < |s[1..]| - 1 && s[1..][i] == '/' && s[1..][i + 1] == '/';
      assert s[i + 1] == '/' && s[i + 2] == '/';
    }
  }

  lemma TripleSlashAfterOne(s: string)
    requires s != [] && !(|s| >= 2 && s[0] == '/' && s[1] == '/')
    ensures HasTripleSlash(s) <==> HasTripleSlash(s[1..])
  {
    if HasTripleSlash(s) {
      var i :| 0 <= i < |s| - 2 && s[i] == '/' && s[i + 1] == '/' && s[i + 2] == '/';
      assert s[1..][i - 1] == s[i] && s[1..][i] == s[i + 1] && s[1..][i + 1] == s[i + 2];
    }
    if HasTripleSlash(s[1..]) {
      var i :| 0 <= i < |s[1..]| - 2 && s[1..][i] == '/' && s[1..][i + 1] == '/' && s[1..][i + 2] == '/';
      assert s[i + 1] == '/' && s[i + 2] == '/' && s[i + 3] == '/';
    }
  }

  lemma TripleSlashAfterTwo(s: string)
    requires |s| >= 2 && s[0] == '/' && s[1] == '/'
    ensures HasTripleSlash(s) <==>
      (|s| >= 3 && s[2] == '/') || HasTripleSlash(s[2..])
  {
    if HasTripleSlash(s) && !(|s| >= 3 && s[2] == '/') {
      var i :| 0 <= i < |s| - 2 && s[i] == '/' && s[i + 1] == '/' && s[i + 2] == '/';
      assert i >= 3;
      assert s[2..][i - 2] == s[i] && s[2..][i - 1] == s[i + 1] && s[2..][i] == s[i + 2];
    }
    if HasTripleSlash(s[2..]) {
      var i :| 0 <= i < |s[2..]| - 2 && s[2..][i] == '/' && s[2..][i + 1] == '/' && s[2..][i + 2] == '/';
      assert s[i + 2] == '/' && s[i + 3] == '/' && s[i + 4] == '/';
    }
  }

  /** The pass only ever removes separators: every other character is kept,
      in order. */
  lemma {:induction false} CollapseKeepsNonSlashes(s: string)
    ensures NonSlashes(Collapse(s)) == NonSlashes(s)
  {
    if s == [] {
    } else if |s| >= 2 && s[0] == '/' && s[1] == '/' {
      CollapseKeepsNonSlashes(s[2..]);
      assert ("/" + Collapse(s[2..]))[1..] == Collapse(s[2..]);
      assert s[1..][1..] == s[2..];
    } else {
      CollapseKeepsNonSlashes(s[1..]);
      assert ([s[0]] + Collapse(s[1..]))[1..] == Collapse(s[1..]);
    }
  }

  lemma {:induction false} NonSlashesMembership(s: string, c: char)
    requires c != '/'
    ensures c in NonSlashes(s) <==> c in s
  {
    if s != [] {
      NonSlashesMembership(s[1..], c);
      assert s == [s[0]] + s[1..];
    }
  }

  /** A collapse never introduces or removes a character other than '/'. */
  lemma CollapseMembership(s: string, c: char)
    requires c != '/'
    ensures c in Collapse(s) <==> c in s
  {
    CollapseKeepsNonSlashes(s);
    NonSlashesMembership(s, c);
    NonSlashesMembership(Collapse(s), c);
  }

  /** A prefix with no "//" that does not end in a separator passes through
      the collapse untouched. */
  lemma {:induction false} CollapsePrefix(p: string, x: string)
    requires p != [] && p[|p| - 1] != '/' && !HasDoubleSlash(p)
    ensures Collapse(p + x) == p + Collapse(x)
  {
    var s := p + x;
    assert s[0] == p[0];
    if |p| == 1 {
      assert s[1..] == x;
    } else {
      assert s[1] == p[1];
      assert !(p[0] == '/' && p[1] == '/');
      assert s[1..] == p[1..] + x;
      DoubleSlashAfterOne(p);
      CollapsePrefix(p[1..], x);
      assert p == [p[0]] + p[1..];
    }
  }

  /** A suffix with no separator passes through the collapse untouched. */
  lemma {:induction false} CollapseSuffix(p: string, t: string)
    requires '/' !in t
    ensures Collapse(p + t) == Collapse(p) + t
  {
    if p == [] {
      assert p + t == t;
      CollapseNoSlashUnchanged(t);
    } else if |p| >= 2 && p[0] == '/' && p[1] == '/' {
      CollapseSuffix(p[2..], t);
      SuffixAfterDouble(p, t);
    } else {
      CollapseSuffix(p[1..], t);
      SuffixAfterSingle(p, t);
    }
  }

  lemma SuffixAfterDouble(p: string, t: string)
    requires |p| >= 2 && p[0] == '/' && p[1] == '/'
    requires Collapse(p[2..] + t) == Collapse(p[2..]) + t
    ensures Collapse(p + t) == Collapse(p) + t
  {
    var s := p + t;
    ConcatTail(p, t, 2);
    CollapseOfEqual(s[2..], p[2..] + t);
    CollapseDoubleStep(p);
    CollapseDoubleStep(s);
    ConcatAssoc("/", Collapse(p[2..]), t);
  }

  lemma SuffixAfterSingle(p: string, t: string)
    requires '/' !in t
    requires p != [] && !(|p| >= 2 && p[0] == '/' && p[1] == '/')
    requires Collapse(p[1..] + t) == Collapse(p[1..]) + t
    ensures Collapse(p + t) == Collapse(p) + t
  {
    var s := p + t;
    assert s[0] == p[0];
    assert !(|s| >= 2 && s[0] == '/' && s[1] == '/') by {
      if |p| >= 2 {
        assert s[1] == p[1];
      } else {
        assert t != [] ==> s[1] == t[0] && t[0] in t;
      }
    }
    ConcatTail(p, t, 1);
    CollapseOfEqual(s[1..], p[1..] + t);
    SingleStepBoth(p, s, Collapse(p[1..]), t);
  }

  lemma SingleStepBoth(p: string, s: string, rest: string, t: string)
    requires p != [] && !(|p| >= 2 && p[0] == '/' && p[1] == '/')
    requires s != [] && !(|s| >= 2 && s[0] == '/' && s[1] == '/')
    requires s[0] == p[0] && Collapse(p[1..]) == rest && Collapse(s[1..]) == rest + t
    ensures Collapse(s) == Collapse(p) + t
  {
    CollapseSingleStep(p);
    CollapseSingleStep(s);
    ConcatAssoc([p[0]], rest, t);
  }

  lemma {:induction false} CollapseNoSlashUnchanged(t: string)
    requires '/' !in t
    ensures Collapse(t) == t
  {
    if t != [] {
      assert t[0] != '/' && '/' !in t[1..];
      CollapseNoSlashUnchanged(t[1..]);
    }
  }

  // The lemmas below are one-step unfoldings of `+`, slicing and `Collapse`.
  // Dafny proves each of them on its own; the proofs above call them to stay
  // cheap, and they state no property of the model.

  lemma ConcatAssoc<T>(a: seq<T>, b: seq<T>, c: seq<T>)
    ensures (a + b) + c == a + (b + c)
  {
  }

  lemma ConcatTail(p: string, t: string, k: nat)
    requires k <= |p|
    ensures (p + t)[k..] == p[k..] + t
  {
  }

  lemma CollapseOfEqual(a: string, b: string)
    requires a == b
    ensures Collapse(a) == Collapse(b)
  {
  }

  lemma CollapseDoubleStep(s: string)
    requires |s| >= 2 && s[0] == '/' && s[1] == '/'
    ensures Collapse(s) == "/" + Collapse(s[2..])
  {
  }

  lemma CollapseSingleStep(s: string)
    requires s != [] && !(|s| >= 2 && s[0] == '/' && s[1] == '/')
    ensures Collapse(s) == [s[0]] + Collapse(s[1..])
  {
  }

  // ---------------------------------------------------------------------
  // Directory names

  lemma {:induction false} PathBeforeQueryOfPath(p: string)
    requires '?' !in p
    ensures PathBeforeQuery(p) == p
  {
    var r := PathBeforeQuery(p);
    assert |r| == |p|;
  }

  /** Whatever follows the first '?' is ignored by `split('?')[0]`. */
  lemma {:induction false} PathBeforeQueryOfSplit(p: string, q: string)
    requires '?' !in p
    ensures PathBeforeQuery(p + "?" + q) == p
  {
    var u := p + "?" + q;
    var r := PathBeforeQuery(u);
    assert u[|p|] == '?' && u[..|p|] == p;
    assert |r| == |p|;
  }

  /** The directory depends on the URL only up to its first '?': appending
      any query to a query-free path gives the directory of the path. */
  lemma LogDirNameIgnoresQuery(routeName: string, path: string, query: string)
    requires '?' !in path
    ensures LogDirName(routeName, path + "?" + query) == LogDirName(routeName, path)
  {
    PathBeforeQueryOfSplit(path, query);
    PathBeforeQueryOfPath(path);
  }

  /** Nothing of the query reaches the directory: when the route name has no
      '?', neither has the directory name. */
  lemma LogDirNameHasNoQuery(routeName: string, originalUrl: string)
    requires '?' !in routeName
    ensures '?' !in LogDirName(routeName, originalUrl)
  {
    var s := LOG_ROOT + routeName + "/" + PathBeforeQuery(originalUrl);
    assert '?' !in s;
    CollapseMembership(s, '?');
  }

  /** Every directory name starts with "../.logs/": the collapse cannot touch
      the literal "../.logs" and leaves a separator after it. */
  lemma LogDirNameStartsWithRoot(routeName: string, originalUrl: string)
    ensures LOG_ROOT <= LogDirName(routeName, originalUrl)
  {
    var head := "../.logs";
    var tail := "/" + routeName + "/" + PathBeforeQuery(originalUrl);
    assert LOG_ROOT + routeName + "/" + PathBeforeQuery(originalUrl) == head + tail;
    assert !HasDoubleSlash(head) by {
      forall i | 0 <= i < |head| - 1 ensures !(head[i] == '/' && head[i + 1] == '/') {
      }
    }
    CollapsePrefix(head, tail);
    CollapseHead(tail);
    assert LogDirName(routeName, originalUrl) == head + Collapse(tail);
  }

  // ---------------------------------------------------------------------
  // File names

  /** Two verb names give the same file name exactly when they differ
      only in letter case. */
  lemma LogFileNameCaseIff(m1: string, m2: string, r: string)
    ensures LogFileName(m1, r) == LogFileName(m2, r) <==> SameIgnoringCase(m1, m2)
  {
    var suffix := "_" + r + ".json";
    assert LogFileName(m1, r) == ToLower(m1) + suffix;
    assert LogFileName(m2, r) == ToLower(m2) + suffix;
    if LogFileName(m1, r) == LogFileName(m2, r) {
      assert ToLower(m1) == LogFileName(m1, r)[..|m1|];
      assert ToLower(m2) == LogFileName(m2, r)[..|m2|];
      forall i | 0 <= i < |m1| ensures LowerChar(m1[i]) == LowerChar(m2[i]) {
        assert ToLower(m1)[i] == ToLower(m2)[i];
      }
    }
    if SameIgnoringCase(m1, m2) {
      assert ToLower(m1) == ToLower(m2);
    }
  }

  /** Every file name ends in ".json". */
  lemma LogFileNameIsJson(verb: string, r: string)
    ensures LogFileName(verb, r)[|LogFileName(verb, r)| - 5..] == ".json"
  {
  }

  /** Names ending in `"_" + r1 + ".json"` and `"_" + r2 + ".json"` differ
      when `r2` is one character longer and does not start with '_'. */
  lemma DirectionSuffixesDiffer(x: string, y: string, r1: string, r2: string)
    requires |r2| == |r1| + 1 && r2[0] != '_'
    ensures x + ("_" + r1 + ".json") != y + ("_" + r2 + ".json")
  {
    var a := x + ("_" + r1 + ".json");
    var b := y + ("_" + r2 + ".json");
    assert a[|x|] == '_';
    assert |a| == |b| ==> b[|x|] == r2[0];
  }

  lemma LogFileNameSplit(verb: string, r: string)
    ensures LogFileName(verb, r) == ToLower(verb) + ("_" + r + ".json")
  {
  }

  lemma RawLogFileSplit(base: string, routeName: string, url: string, verb: string, r: string)
    ensures RawLogFile(base, routeName, url, verb, r)
         == (LogDir(base, routeName, url) + "/" + ToLower(verb)) + ("_" + r + ".json")
  {
  }

  /** A request file name and a response file name never coincide,
      whatever the two methods. */
  lemma LogFileNamesDistinct(m1: string, m2: string)
    ensures LogFileName(m1, "requests") != LogFileName(m2, "responses")
  {
    LogFileNameSplit(m1, "requests");
    LogFileNameSplit(m2, "responses");
    DirectionSuffixesDiffer(ToLower(m1), ToLower(m2), "requests", "responses");
  }

  /** The request log and the response log are distinct files, for any
      base directories, routes, URLs and methods. */
  lemma LogFilePathsDistinct(
    base1: string, routeName1: string, url1: string, m1: string,
    base2: string, routeName2: string, url2: string, m2: string)
    ensures LogFilePath(base1, routeName1, url1, m1, "requests")
         != LogFilePath(base2, routeName2, url2, m2, "responses")
  {
    var p1 := LogDir(base1, routeName1, url1) + "/" + ToLower(m1);
    var p2 := LogDir(base2, routeName2, url2) + "/" + ToLower(m2);
    var t1 := "_" + "requests" + ".json";
    var t2 := "_" + "responses" + ".json";
    RawLogFileSplit(base1, routeName1, url1, m1, "requests");
    RawLogFileSplit(base2, routeName2, url2, m2, "responses");
    CollapseSuffix(p1, t1);
    CollapseSuffix(p2, t2);
    DirectionSuffixesDiffer(Collapse(p1), Collapse(p2), "requests", "responses");
  }

  /** Methods that differ only in case are logged to the same file. */
  lemma LogFilePathCaseInsensitive(base: string, routeName: string, url: string, m1: string, m2: string, r: string)
    requires SameIgnoringCase(m1, m2)
    ensures LogFilePath(base, routeName, url, m1, r) == LogFilePath(base, routeName, url, m2, r)
  {
    LogFileNameCaseIff(m1, m2, r);
  }

  /** `toLowerCase` introduces no '/' into a name that has none. */
  lemma ToLowerNoSlash(s: string)
    requires '/' !in s
    ensures '/' !in ToLower(s)
  {
    forall i | 0 <= i < |s|
      ensures ToLower(s)[i] != '/'
    {
      assert s[i] != '/';
    }
  }

  /** For a method and a direction without '/', the collapsed path is the
      collapsed directory followed by the file name, untouched. */
  lemma LogFilePathSplit(base: string, routeName: string, url: string, verb: string, r: string)
    requires '/' !in verb && '/' !in r
    ensures LogFilePath(base, routeName, url, verb, r)
         == Collapse(LogDir(base, routeName, url) + "/") + LogFileName(verb, r)
  {
    var d := LogDir(base, routeName, url) + "/";
    var n := LogFileName(verb, r);
    assert RawLogFile(base, routeName, url, verb, r) == d + n;
    LogFileNameSplit(verb, r);
    ToLowerNoSlash(verb);
    assert '/' !in n;
    CollapseSuffix(d, n);
  }

  lemma CancelPrefix<T>(c: seq<T>, a: seq<T>, b: seq<T>)
    ensures c + a == c + b <==> a == b
  {
    if c + a == c + b {
      assert a == (c + a)[|c|..];
      assert b == (c + b)[|c|..];
    }
  }

  /** On one route and URL, two methods share a log file exactly when they
      differ only in letter case: GET and POST are logged apart. HTTP method
      names are tokens, so they contain no '/'. */
  lemma LogFilePathMethodIff(base: string, routeName: string, url: string, m1: string, m2: string, r: string)
    requires '/' !in m1 && '/' !in m2 && '/' !in r
    ensures LogFilePath(base, routeName, url, m1, r) == LogFilePath(base, routeName, url, m2, r)
        <==> SameIgnoringCase(m1, m2)
  {
    LogFilePathSplit(base, routeName, url, m1, r);
    LogFilePathSplit(base, routeName, url, m2, r);
    CancelPrefix(Collapse(LogDir(base, routeName, url) + "/"), LogFileName(m1, r), LogFileName(m2, r));
    LogFileNameCaseIff(m1, m2, r);
  }

  /** The '/' condition above is needed: the collapse merges the doubled
      slash of a method name "a//b" with the single one of "a/b". */
  lemma MethodWithSlashesCollide()
    ensures Collapse("x/a//b_requests.json") == Collapse("x/a/b_requests.json")
    ensures !SameIgnoringCase("a//b", "a/b")
  {
    var p, t := "x/a", "b_requests.json";
    assert !HasDoubleSlash(p);
    assert "x/a//b_requests.json" == p + ("//" + t);
    assert "x/a/b_requests.json" == p + ("/" + t);
    CollapsePrefix(p, "//" + t);
    CollapsePrefix(p, "/" + t);
    CollapseDoubleStep("//" + t);
    assert ("//" + t)[2..] == t;
    CollapseSingleStep("/" + t);
    assert ("/" + t)[1..] == t;
  }

  /** When the directory joined with "/" holds no "//", the collapse in
      `lager` leaves the joined path alone, so the file `lager` appends to
      lies directly inside the directory the middleware ensured. */
  lemma LogFilePathInLogDir(base: string, routeName: string, url: string, verb: string, r: string)
    requires '/' !in verb && '/' !in r && !HasDoubleSlash(LogDir(base, routeName, url) + "/")
    ensures LogFilePath(base, routeName, url, verb, r) == LogDir(base, routeName, url) + "/" + LogFileName(verb, r)
  {
    LogFilePathSplit(base, routeName, url, verb, r);
    CollapseNoDoubleUnchanged(LogDir(base, routeName, url) + "/");
  }

  /** The route name and the URL are joined with '/', so a route "a/b"
      serving "/c" and a route "a" serving "/b/c" share one directory. */
  lemma RouteAndPathShareDir()
    ensures LogDirName("a/b", "/c") == LogDirName("a", "/b/c") == "../.logs/a/b/c"
  {
    RouteWithSlashDir();
    UrlWithSlashDir();
  }

  lemma RouteWithSlashDir()
    ensures LogDirName("a/b", "/c") == "../.logs/a/b/c"
  {
    PathBeforeQueryOfPath("/c");
    var p := "../.logs/a/b";
    assert !HasDoubleSlash(p);
    assert LOG_ROOT + "a/b" + "/" + "/c" == p + "//c";
    CollapsePrefix(p, "//c");
    CollapseDoubleStep("//c");
    assert "//c"[2..] == "c";
  }

  lemma UrlWithSlashDir()
    ensures LogDirName("a", "/b/c") == "../.logs/a/b/c"
  {
    PathBeforeQueryOfPath("/b/c");
    var p := "../.logs/a";
    assert !HasDoubleSlash(p);
    assert LOG_ROOT + "a" + "/" + "/b/c" == p + "//b/c";
    CollapsePrefix(p, "//b/c");
    CollapseDoubleStep("//b/c");
    assert "//b/c"[2..] == "b/c";
    assert !HasDoubleSlash("b/c");
    CollapseNoDoubleUnchanged("b/c");
  }
}
