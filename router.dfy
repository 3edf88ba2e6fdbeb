/** parseRoutes of handler.php: from the request URI and method to exactly
    one of four outcomes. The filesystem is the set of existing paths; a
    route script, once required, is described by what it leaves behind: its
    `$frontend` flag, the output it printed and the functions then defined. */
module Router {
  import opened Php

  const RoutesRoot: string := "src/routes"

  /** json_encode(array("success" => false, "message" => "Not Found.")) */
  const NotFoundBody: string := "{\"success\":false,\"message\":\"Not Found.\"}"

  /** json_encode(array("success" => false, "message" => "Method Not Allowed.")) */
  const MethodNotAllowedBody: string := "{\"success\":false,\"message\":\"Method Not Allowed.\"}"

  /** The characters of s before the first delim. */
  function TakeUntil(s: string, delim: char): (r: string)
    ensures r <= s && delim !in r
    ensures |r| == |s| || s[|r|] == delim
  {
    if s == [] || s[0] == delim then [] else [s[0]] + TakeUntil(s[1..], delim)
  }

  /** The number of delim characters s starts with. */
  function LeadingCount(s: string, delim: char): (n: nat)
    ensures n <= |s|
    ensures forall i :: 0 <= i < n ==> s[i] == delim
    ensures n == |s| || s[n] != delim
  {
    if s != [] && s[0] == delim then
      var m := LeadingCount(s[1..], delim);
      assert forall i :: 1 <= i < m + 1 ==> s[i] == s[1..][i - 1];
      1 + m
    else 0
  }

  /** `strtok($s, $delim)` on a fresh string: the token is what follows the
      leading delimiters, up to the next delimiter. It is empty exactly when
      s holds nothing but delimiters; strtok then returns false, which
      concatenates as the empty string. */
  function StrTok(s: string, delim: char): (r: string)
    ensures r == TakeUntil(s[LeadingCount(s, delim)..], delim)
    ensures delim !in r
    ensures r == [] <==> forall i :: 0 <= i < |s| ==> s[i] == delim
  {
    if s == [] then []
    else if s[0] == delim then
      var r := StrTok(s[1..], delim);
      assert s[1..][LeadingCount(s[1..], delim)..] == s[LeadingCount(s, delim)..];
      assert forall i :: 1 <= i < |s| ==> s[i] == s[1..][i - 1];
      r
    else TakeUntil(s, delim)
  }

  /** The route path: the routes root, then the URI up to its query string,
      with every trailing '/' removed. It always starts with the routes
      root, which has no trailing '/', and never ends with '/'. */
  function RoutePath(uri: string): (r: string)
    ensures RoutesRoot <= r
    ensures r[|r| - 1] != '/'
  {
    RTrimKeepsPrefix(RoutesRoot, StrTok(uri, '?'), {'/'});
    RTrim(RoutesRoot + StrTok(uri, '?'), {'/'})
  }

  /** What requiring a route script leaves behind. */
  datatype Controller = Controller(frontend: bool, output: string, functions: set<string>)

  datatype Outcome =
    | NotFound
    | Frontend(script: string, output: string)
    | Dispatched(script: string, handler: string)
    | MethodNotAllowed(script: string)

  /** The response the router itself sends, as status and body; None when
      the route script produces the response. */
  function ErrorResponse(o: Outcome): Option<(int, string)> {
    match o
    case NotFound => Some((404, NotFoundBody))
    case MethodNotAllowed(_) => Some((405, MethodNotAllowedBody))
    case _ => None
  }

  function LowerChar(c: char): char {
    if 'A' <= c <= 'Z' then (c as int + 32) as char else c
  }

  /** ASCII lower case, as PHP compares function names. */
  function Lower(s: string): (r: string)
    ensures |r| == |s|
    ensures forall i :: 0 <= i < |s| ==> r[i] == LowerChar(s[i])
  {
    seq(|s|, i requires 0 <= i < |s| => LowerChar(s[i]))
  }

  /** `function_exists($name)`: function names are case-insensitive. */
  predicate FunctionExists(functions: set<string>, name: string) {
    exists f :: f in functions && Lower(f) == Lower(name)
  }

  method ParseRoutes(uri: string, requestMethod: string, files: set<string>, load: string -> Controller)
    returns (o: Outcome)
    ensures var p := RoutePath(uri);
      o.NotFound? <==> p + ".php" !in files && p + "/index.php" !in files
    ensures var p := RoutePath(uri);
      !o.NotFound? ==> o.script == if p + ".php" in files then p + ".php" else p + "/index.php"
    ensures !o.NotFound? ==> (o.Frontend? <==> load(o.script).frontend)
    ensures o.Frontend? ==> o.output == load(o.script).output
    ensures o.Dispatched? ==> o.handler == requestMethod
    ensures !o.NotFound? && !load(o.script).frontend ==>
      (o.Dispatched? <==> FunctionExists(load(o.script).functions, requestMethod))
  {
    var path := RTrim(RoutesRoot + StrTok(uri, '?'), {'/'});
    var controller := "";
    if path + ".php" in files {
      controller := path + ".php";
    } else if path + "/index.php" in files {
      controller := path + "/index.php";
    } else {
      // sendResponseJson(404, ...) ends the request
      return NotFound;
    }
    var frontend := false;
    // require($controller) runs the script, which may set $frontend
    var script := load(controller);
    frontend := script.frontend;
    if frontend {
      // its buffered output is kept
      return Frontend(controller, script.output);
    }
    // ob_end_clean(): its buffered output is discarded
    if FunctionExists(script.functions, requestMethod) {
      o := Dispatched(controller, requestMethod);
    } else {
      o := MethodNotAllowed(controller);
    }
  }

  /** The router's own responses: 404 and 405 with their fixed JSON bodies. */
  lemma ErrorResponses(script: string)
    ensures ErrorResponse(NotFound) == Some((404, "{\"success\":false,\"message\":\"Not Found.\"}"))
    ensures ErrorResponse(MethodNotAllowed(script))
      == Some((405, "{\"success\":false,\"message\":\"Method Not Allowed.\"}"))
  {
  }

  /** For a URI that does not begin with '?', the token is the URI cut at its
      first '?'. */
  lemma RoutePathShape(uri: string)
    requires uri == [] || uri[0] != '?'
    ensures var n := |StrTok(uri, '?')|;
      n <= |uri| && StrTok(uri, '?') == uri[..n] && '?' !in uri[..n] &&
      (n == |uri| || uri[n] == '?') &&
      RoutePath(uri) == RTrim(RoutesRoot + uri[..n], {'/'})
  {
    assert uri[0..] == uri;
  }

  /** A URI with no '?' is its own token (the empty URI gives no token). */
  lemma {:induction false} StrTokWhole(s: string)
    requires '?' !in s
    ensures StrTok(s, '?') == s
  {
    if s != [] {
      assert s[0] != '?';
    }
  }

  /** Cutting at the first '?' of a URI whose path part has no '?'. */
  lemma {:induction false} TakeUntilQuery(p: string, q: string)
    requires '?' !in p
    ensures TakeUntil(p + "?" + q, '?') == p
  {
    if p != [] {
      assert (p + "?" + q)[1..] == p[1..] + "?" + q;
      TakeUntilQuery(p[1..], q);
    }
  }

  /** A query string does not change the route path. */
  lemma QueryStringIgnored(p: string, q: string)
    requires p != [] && '?' !in p
    ensures RoutePath(p + "?" + q) == RoutePath(p)
  {
    assert (p + "?" + q)[0] == p[0];
    TakeUntilQuery(p, q);
    StrTokWhole(p);
  }

  /** Trailing slashes do not change the route path. */
  lemma TrailingSlashIgnored(p: string)
    requires '?' !in p
    ensures RoutePath(p + "/") == RoutePath(p)
  {
    StrTokWhole(p);
    StrTokWhole(p + "/");
    assert RoutesRoot + (p + "/") == (RoutesRoot + p) + "/";
    RTrimIgnoresTail(RoutesRoot + p, "/", {'/'});
  }

  /** strtok skips leading '?': a URI made of '?' then a path resolves as that path. */
  lemma LeadingQuestionMarkSkipped(s: string)
    ensures RoutePath("?" + s) == RoutePath(s)
  {
    assert ("?" + s)[1..] == s;
  }

  lemma LowerIdempotent(s: string)
    ensures Lower(Lower(s)) == Lower(s)
  {
  }

  /** Dispatch does not depend on the case of the request method. */
  lemma DispatchIgnoresCase(functions: set<string>, name: string)
    ensures FunctionExists(functions, name) <==> FunctionExists(functions, Lower(name))
  {
    LowerIdempotent(name);
  }
}
