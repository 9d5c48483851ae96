/**
 * Request routing of the web front end: an exact lookup in the static
 * table, then the first dynamic route whose verb is the request's and whose
 * anchored pattern (`^/cards/([0-9]+)` and a suffix, then any number of
 * slashes, then the end) matches the path, else the 404 handler.
 */
module Routing {
  import opened Common

  datatype Handler = GetNextCardFront | Get404 | GetCard | PostDidRecall | PostDidNotRecall | PostSkip

  /** What route returns: the handler and, for a dynamic route, the card id its group captured. */
  datatype RouteResult = RouteResult(handler: Handler, cardId: Option<string>)

  /** The static table: (verb, path) to handler. */
  const StaticRoutes: map<(string, string), Handler> := map[
    ("GET", "/") := GetNextCardFront,
    ("GET", "/404") := Get404
  ]

  /**
   * A dynamic route: the verb, and the path pattern `/cards/([0-9]+)`
   * followed by a literal suffix.
   */
  datatype DynamicRoute = DynamicRoute(verb: string, suffix: string, handler: Handler)

  const CardPrefix: string := "/cards/"

  /** The pattern text of a dynamic route, as the table writes it. */
  function PatternText(r: DynamicRoute): string
  {
    CardPrefix + "([0-9]+)" + r.suffix
  }

  /** The dynamic table, in its order. */
  const DynamicRoutes: seq<DynamicRoute> := [
    DynamicRoute("GET", "", GetCard),
    DynamicRoute("POST", "/did-recall", PostDidRecall),
    DynamicRoute("POST", "/did-not-recall", PostDidNotRecall),
    DynamicRoute("POST", "/skip", PostSkip)
  ]

  /** A compiled route: the table entry with its anchored regex text. */
  datatype CompiledRoute = CompiledRoute(verb: string, pattern: string, regex: string, suffix: string, handler: Handler)

  /** The compiled form of one entry: its pattern between a `^` anchor and trailing slashes anchored at the end. */
  function Compile(r: DynamicRoute): CompiledRoute
  {
    CompiledRoute(r.verb, PatternText(r), "^" + PatternText(r) + "/*$", r.suffix, r.handler)
  }

  /** compile_routes: one compiled entry per table entry, in table order. */
  method CompileRoutes(routes: seq<DynamicRoute>) returns (compiled: seq<CompiledRoute>)
    ensures |compiled| == |routes|
    ensures forall k :: 0 <= k < |routes| ==>
      && compiled[k].verb == routes[k].verb
      && compiled[k].handler == routes[k].handler
      && compiled[k].suffix == routes[k].suffix
      && compiled[k].pattern == PatternText(routes[k])
      && compiled[k].regex == "^" + compiled[k].pattern + "/*$"
  {
    compiled := [];
    var k := 0;
    while k < |routes|
      invariant k <= |routes| && |compiled| == k
      invariant forall j :: 0 <= j < k ==> compiled[j] == Compile(routes[j])
    {
      var route := routes[k];
      var compiledPath := "^" + PatternText(route) + "/*" + "$";
      assert compiledPath == "^" + PatternText(route) + "/*$";
      compiled := compiled + [CompiledRoute(route.verb, PatternText(route), compiledPath, route.suffix, route.handler)];
      k := k + 1;
    }
  }

  predicate IsDigit(c: char)
  {
    '0' <= c <= '9'
  }

  predicate AllDigits(s: string)
  {
    forall k :: 0 <= k < |s| ==> IsDigit(s[k])
  }

  predicate AllSlashes(s: string)
  {
    forall k :: 0 <= k < |s| ==> s[k] == '/'
  }

  /** The length of the run of decimal digits at the start of `s` (the greedy `[0-9]+`). */
  function DigitRun(s: string): (n: nat)
    ensures n <= |s| && AllDigits(s[..n]) && (n < |s| ==> !IsDigit(s[n]))
  {
    if s == [] || !IsDigit(s[0]) then 0
    else
      var n := DigitRun(s[1..]);
      assert s[..n + 1] == [s[0]] + s[1..][..n];
      n + 1
  }

  /** What the trailing slashes and `$` accept: slashes only, optionally followed by one final "\n" (Python's `$`). */
  predicate SlashesToEnd(s: string)
  {
    AllSlashes(s) || (s != [] && s[|s| - 1] == '\n' && AllSlashes(s[..|s| - 1]))
  }

  /**
   * The anchored pattern `^/cards/([0-9]+)<suffix>`, any slashes, end, against `path`:
   * the captured digits, or None.
   */
  function MatchCardPath(suffix: string, path: string): Option<string>
  {
    if |path| < |CardPrefix| || path[..|CardPrefix|] != CardPrefix then None
    else
      var rest := path[|CardPrefix|..];
      var n := DigitRun(rest);
      var after := rest[n..];
      if n == 0 || |after| < |suffix| || after[..|suffix|] != suffix || !SlashesToEnd(after[|suffix|..]) then None
      else Some(rest[..n])
  }

  /** A path the pattern accepts: prefix, digits, suffix, slashes, and perhaps one final newline. */
  predicate CardPathShape(path: string, suffix: string, digits: string, slashes: string, newline: bool)
  {
    && digits != [] && AllDigits(digits) && AllSlashes(slashes)
    && path == CardPrefix + digits + suffix + slashes + (if newline then "\n" else "")
  }

  /**
   * For a suffix that does not open with a digit, the recogniser accepts
   * exactly the paths of that shape, and captures their digits.
   */
  lemma MatchCardPathComplete(path: string, suffix: string, digits: string, slashes: string, newline: bool)
    requires suffix == [] || !IsDigit(suffix[0])
    requires CardPathShape(path, suffix, digits, slashes, newline)
    ensures MatchCardPath(suffix, path) == Some(digits)
  {
    var tail := slashes + (if newline then "\n" else "");
    var after := suffix + tail;
    assert path == CardPrefix + digits + after;
    MatchAfterDigits(path, suffix, digits, after);
    assert after[..|suffix|] == suffix && after[|suffix|..] == tail;
    if newline {
      assert tail[..|tail| - 1] == slashes;
    } else {
      assert tail == slashes;
    }
  }

  /** Past the prefix and a maximal run of digits, the recogniser only looks at what follows the digits. */
  lemma MatchAfterDigits(path: string, suffix: string, digits: string, after: string)
    requires digits != [] && AllDigits(digits) && (after == [] || !IsDigit(after[0]))
    requires path == CardPrefix + digits + after
    ensures MatchCardPath(suffix, path) ==
      if |after| < |suffix| || after[..|suffix|] != suffix || !SlashesToEnd(after[|suffix|..]) then None else Some(digits)
  {
    var rest := digits + after;
    assert path == CardPrefix + rest;
    assert path[..|CardPrefix|] == CardPrefix && path[|CardPrefix|..] == rest;
    DigitRunOfShape(digits, after);
    assert rest[..|digits|] == digits && rest[|digits|..] == after;
  }

  lemma {:induction false} DigitRunOfShape(digits: string, after: string)
    requires AllDigits(digits) && (after == [] || !IsDigit(after[0]))
    ensures DigitRun(digits + after) == |digits|
    decreases |digits|
  {
    if digits == [] {
      assert digits + after == after;
    } else {
      assert (digits + after)[1..] == digits[1..] + after;
      DigitRunOfShape(digits[1..], after);
    }
  }

  /** Whatever the recogniser accepts has that shape, and the capture is a non-empty run of digits. */
  lemma MatchCardPathSound(path: string, suffix: string)
    requires MatchCardPath(suffix, path).Some?
    ensures exists slashes, newline :: CardPathShape(path, suffix, MatchCardPath(suffix, path).value, slashes, newline)
  {
    var slashes, newline := CardPathParts(path, suffix);
  }

  /** The slashes and the optional final newline of a path the recogniser accepts. */
  lemma CardPathParts(path: string, suffix: string) returns (slashes: string, newline: bool)
    requires MatchCardPath(suffix, path).Some?
    ensures CardPathShape(path, suffix, MatchCardPath(suffix, path).value, slashes, newline)
  {
    var rest := path[|CardPrefix|..];
    var n := DigitRun(rest);
    var after := rest[n..];
    var tail := after[|suffix|..];
    assert MatchCardPath(suffix, path).value == rest[..n];
    newline := !AllSlashes(tail);
    slashes := if newline then tail[..|tail| - 1] else tail;
    TailSplit(tail, slashes, newline);
    PathParts(path, CardPrefix, rest, n, suffix, tail);
  }

  /** An accepted tail is its slashes followed by the newline, if any. */
  lemma TailSplit(tail: string, slashes: string, newline: bool)
    requires SlashesToEnd(tail)
    requires newline == !AllSlashes(tail) && slashes == if newline then tail[..|tail| - 1] else tail
    ensures AllSlashes(slashes) && tail == slashes + (if newline then "\n" else "")
  {
    if newline {
      assert tail == tail[..|tail| - 1] + [tail[|tail| - 1]];
    }
  }

  /** A path that starts with `prefix` splits into the prefix, the digits, the suffix and the tail. */
  lemma PathParts(path: string, prefix: string, rest: string, n: nat, suffix: string, tail: string)
    requires |prefix| <= |path| && path[..|prefix|] == prefix && rest == path[|prefix|..]
    requires n <= |rest| && |suffix| <= |rest| - n && rest[n..][..|suffix|] == suffix && tail == rest[n..][|suffix|..]
    ensures path == prefix + rest[..n] + suffix + tail
  {
    assert path == prefix + rest;
    assert rest == rest[..n] + rest[n..];
    assert rest[n..] == suffix + tail;
  }

  /** The first compiled route, from `k` on, whose verb is `verb` and whose pattern matches `path`. */
  function FirstDynamic(routes: seq<CompiledRoute>, verb: string, path: string, k: nat): (r: Option<(nat, string)>)
    requires k <= |routes|
    ensures r.Some? ==>
      && k <= r.value.0 < |routes|
      && routes[r.value.0].verb == verb
      && MatchCardPath(routes[r.value.0].suffix, path) == Some(r.value.1)
    decreases |routes| - k
  {
    if k == |routes| then None
    else if routes[k].verb == verb && MatchCardPath(routes[k].suffix, path).Some? then
      Some((k, MatchCardPath(routes[k].suffix, path).value))
    else FirstDynamic(routes, verb, path, k + 1)
  }

  /**
   * route: a static entry first, then the first matching dynamic route, else
   * the 404 handler.  Only a dynamic route captures, and what it captures is
   * a non-empty run of decimal digits.
   */
  function Route(routes: seq<CompiledRoute>, verb: string, path: string): (r: RouteResult)
    ensures r.cardId.Some? ==> (verb, path) !in StaticRoutes && r.cardId.value != [] && AllDigits(r.cardId.value)
  {
    if (verb, path) in StaticRoutes then RouteResult(StaticRoutes[(verb, path)], None)
    else match FirstDynamic(routes, verb, path, 0)
      case Some((k, digits)) => RouteResult(routes[k].handler, Some(digits))
      case None => RouteResult(Get404, None)
  }

  /** No route before the one FirstDynamic picks has the request's verb and a matching pattern. */
  lemma {:induction false} FirstDynamicIsFirst(routes: seq<CompiledRoute>, verb: string, path: string, k: nat, j: nat)
    requires k <= j <= |routes|
    requires FirstDynamic(routes, verb, path, k).None? || j < FirstDynamic(routes, verb, path, k).value.0
    requires j < |routes|
    ensures !(routes[j].verb == verb && MatchCardPath(routes[j].suffix, path).Some?)
    decreases j - k
  {
    if k < j {
      FirstDynamicIsFirst(routes, verb, path, k + 1, j);
    }
  }

  /**
   * The order of checks: an exact static entry wins with no capture; otherwise
   * the earliest dynamic route with the same verb whose pattern matches wins,
   * with its capture; otherwise the 404 handler with no capture.
   */
  lemma RouteChoosesFirstMatch(routes: seq<CompiledRoute>, verb: string, path: string)
    ensures (verb, path) in StaticRoutes ==> Route(routes, verb, path) == RouteResult(StaticRoutes[(verb, path)], None)
    ensures (verb, path) !in StaticRoutes && Route(routes, verb, path).cardId.Some? ==>
      exists k :: 0 <= k < |routes|
        && routes[k].verb == verb
        && Route(routes, verb, path).handler == routes[k].handler
        && MatchCardPath(routes[k].suffix, path) == Route(routes, verb, path).cardId
        && forall j :: 0 <= j < k ==> !(routes[j].verb == verb && MatchCardPath(routes[j].suffix, path).Some?)
    ensures (verb, path) !in StaticRoutes && Route(routes, verb, path).cardId.None? ==>
      Route(routes, verb, path).handler == Get404
      && forall j :: 0 <= j < |routes| ==> !(routes[j].verb == verb && MatchCardPath(routes[j].suffix, path).Some?)
  {
    if (verb, path) !in StaticRoutes {
      var first := FirstDynamic(routes, verb, path, 0);
      forall j | 0 <= j < |routes| && (first.None? || j < first.value.0)
        ensures !(routes[j].verb == verb && MatchCardPath(routes[j].suffix, path).Some?)
      {
        FirstDynamicIsFirst(routes, verb, path, 0, j);
      }
    }
  }

  /** The compiled dynamic table, as the application builds it at start-up. */
  predicate IsCompiledTable(routes: seq<CompiledRoute>)
  {
    routes == [Compile(DynamicRoutes[0]), Compile(DynamicRoutes[1]), Compile(DynamicRoutes[2]), Compile(DynamicRoutes[3])]
  }

  /** The module-level compiled table: compile_routes applied to the dynamic table. */
  method CompiledDynamicRoutes() returns (routes: seq<CompiledRoute>)
    ensures IsCompiledTable(routes)
  {
    routes := CompileRoutes(DynamicRoutes);
    assert forall k :: 0 <= k < 4 ==> routes[k] == Compile(DynamicRoutes[k]);
  }

  /** A POST to the root has no static entry and no card id: it falls through to 404. */
  lemma PostToRootIsNotFound(routes: seq<CompiledRoute>)
    requires IsCompiledTable(routes)
    ensures Route(routes, "POST", "/") == RouteResult(Get404, None)
  {
    assert ("POST", "/") != ("GET", "/") && ("POST", "/") != ("GET", "/404");
    assert forall s :: MatchCardPath(s, "/").None?;
  }

  /** The card pattern with no suffix rejects an action path: what follows the id is not all slashes. */
  lemma RecallPathIsNotACardPath()
    ensures MatchCardPath("", "/cards/3/did-recall").None?
  {
    var after := "/did-recall";
    assert "/cards/3/did-recall" == CardPrefix + "3" + after && AllDigits("3");
    MatchAfterDigits("/cards/3/did-recall", "", "3", after);
    assert after[..0] == [] && after[0..] == after;
    NotSlashesToEnd(after);
  }

  /** A text whose second character is not '/' and whose last is not a newline is not slashes to the end. */
  lemma NotSlashesToEnd(s: string)
    requires |s| >= 2 && s[1] != '/' && s[|s| - 1] != '\n'
    ensures !SlashesToEnd(s)
  {
  }

  /** The recall action path asked for with GET: the GET card route does not take a suffix, the rest are POST. */
  lemma GetOfRecallActionIsNotFound(routes: seq<CompiledRoute>)
    requires IsCompiledTable(routes)
    ensures Route(routes, "GET", "/cards/3/did-recall") == RouteResult(Get404, None)
  {
    var path := "/cards/3/did-recall";
    RecallPathIsNotACardPath();
    assert FirstDynamic(routes, "GET", path, 1).None?;
    assert FirstDynamic(routes, "GET", path, 0).None?;
    assert ("GET", path) !in StaticRoutes by {
      assert ("GET", path) != ("GET", "/") && ("GET", path) != ("GET", "/404");
    }
  }

  /** Trailing slashes are accepted by the card route, and the id is captured. */
  lemma CardWithTrailingSlashes(routes: seq<CompiledRoute>)
    requires IsCompiledTable(routes)
    ensures Route(routes, "GET", "/cards/7//") == RouteResult(GetCard, Some("7"))
  {
    var empty: string := [];
    var path := "/cards/7//";
    assert path == CardPrefix + "7" + empty + "//" + "";
    MatchCardPathComplete(path, empty, "7", "//", false);
    assert ("GET", path) != ("GET", "/") && ("GET", path) != ("GET", "/404");
  }

  /** Python's `$` also matches before one final newline, so a skip path ending in "\n" still routes. */
  lemma SkipWithFinalNewline(routes: seq<CompiledRoute>)
    requires IsCompiledTable(routes)
    ensures Route(routes, "POST", "/cards/42/skip\n") == RouteResult(PostSkip, Some("42"))
  {
    var path := "/cards/42/skip\n";
    var after := "/skip\n";
    assert path == CardPrefix + "42" + after && AllDigits("42");
    assert MatchCardPath("/skip", path) == Some("42") by {
      MatchAfterDigits(path, "/skip", "42", after);
      assert after[..5] == "/skip" && after[5..] == "\n";
      assert SlashesToEnd("\n") by {
        assert "\n"[..0] == [];
      }
    }
    assert MatchCardPath("/did-recall", path).None? by {
      MatchAfterDigits(path, "/did-recall", "42", after);
    }
    assert MatchCardPath("/did-not-recall", path).None? by {
      MatchAfterDigits(path, "/did-not-recall", "42", after);
    }
    assert ("POST", path) !in StaticRoutes by {
      assert ("POST", path) != ("GET", "/") && ("POST", path) != ("GET", "/404");
    }
    assert FirstDynamic(routes, "POST", path, 3) == Some((3, "42"));
    assert FirstDynamic(routes, "POST", path, 1) == Some((3, "42"));
  }
}
