/**
 * Route protection (src/proxy.ts): which request paths pass without a
 * session, and what happens to the others. The session lookup is a
 * parameter.
 */
module Proxy {
  import opened Wrappers
  import opened JsString

  /** `(pathname || '/').split('/').filter(Boolean)` */
  function PathSegments(pathname: string): (segs: seq<string>)
    ensures forall p :: p in segs ==> p != "" && '/' !in p
    ensures forall p :: p in segs <==> p in Split(if pathname == "" then "/" else pathname, '/') && p != ""
  {
    NonEmpty(Split(if pathname == "" then "/" else pathname, '/'))
  }

  const PublicSegments: seq<string> := ["login", "register"]

  /** Some segment is a public route. */
  predicate IsPublic(segs: seq<string>) {
    exists p :: p in PublicSegments && p in segs
  }

  /** `segs[0] === 'auth' || (segs[0] === 'api' && segs[1] === 'auth')`; a missing segment matches nothing. */
  predicate IsAuthPath(segs: seq<string>) {
    (|segs| > 0 && segs[0] == "auth") || (|segs| > 1 && segs[0] == "api" && segs[1] == "auth")
  }

  datatype Decision = Next | RedirectToLogin

  /** The proxy's answer for a path, given whether a session exists. */
  function Decide(pathname: string, hasSession: bool): (d: Decision)
    ensures d == RedirectToLogin <==>
      !hasSession && !IsPublic(PathSegments(pathname)) && !IsAuthPath(PathSegments(pathname))
  {
    var segs := PathSegments(pathname);
    if IsPublic(segs) || IsAuthPath(segs) then Next
    else if !hasSession then RedirectToLogin
    else Next
  }

  /** Public and auth paths pass whatever the session; a session lets every path pass. */
  lemma OpenPaths(pathname: string, hasSession: bool)
    ensures IsPublic(PathSegments(pathname)) || IsAuthPath(PathSegments(pathname)) ==> Decide(pathname, hasSession) == Next
    ensures Decide(pathname, true) == Next
    ensures Decide(pathname, false) == RedirectToLogin ==> !IsPublic(PathSegments(pathname))
  {
  }

  /** A trailing slash does not change how a path is classified. */
  lemma TrailingSlash(pathname: string)
    requires pathname != ""
    ensures PathSegments(pathname + "/") == PathSegments(pathname)
  {
    SplitTrailing(pathname, '/');
    NonEmptyTrailing(Split(pathname, '/'));
  }

  /** A locale prefix in front of `/register`, or a sub-path after it, keeps the route public. */
  lemma PublicUnderPrefix(prefix: string, rest: string, hasSession: bool)
    requires rest == [] || rest[0] == '/'
    ensures IsPublic(PathSegments(prefix + "/register" + rest))
    ensures Decide(prefix + "/register" + rest, hasSession) == Next
  {
    RegisterSegment(prefix, rest);
    assert "register" in PublicSegments;
  }

  /** "register" is one of the segments of `prefix/register` when nothing but a slash or the end follows. */
  lemma RegisterSegment(prefix: string, rest: string)
    requires rest == [] || rest[0] == '/'
    ensures "register" in PathSegments(prefix + "/register" + rest)
  {
    var p := prefix + "/register" + rest;
    assert p == prefix + ['/'] + ("register" + rest);
    SplitConcat(prefix, '/', "register" + rest);
    FirstPiece("register", rest);
    var q := Split("register" + rest, '/');
    assert Split(p, '/') == Split(prefix, '/') + q;
    assert "register" == q[0] && q[0] in Split(p, '/');
  }

  /** `/register/`, `/en/register` and `/register/x` are public. */
  lemma PublicExamples()
    ensures IsPublic(PathSegments("/register/"))
    ensures IsPublic(PathSegments("/en/register"))
    ensures IsPublic(PathSegments("/register/x"))
  {
    assert "" + "/register" + "/" == "/register/";
    assert "/en" + "/register" + "" == "/en/register";
    assert "" + "/register" + "/x" == "/register/x";
    PublicUnderPrefix("", "/", false);
    PublicUnderPrefix("/en", "", false);
    PublicUnderPrefix("", "/x", false);
  }

  /** A word followed by a slash or the end is the first piece. */
  lemma FirstPiece(word: string, rest: string)
    requires '/' !in word && (rest == [] || rest[0] == '/')
    ensures Split(word + rest, '/')[0] == word
  {
    SplitWhole(word, '/');
    if rest != [] {
      assert word + rest == word + ['/'] + rest[1..];
      SplitConcat(word, '/', rest[1..]);
    } else {
      assert word + rest == word;
    }
  }

  /** `/auth` and everything below it is an auth path. */
  lemma AuthPath(rest: string, hasSession: bool)
    requires rest == [] || rest[0] == '/'
    ensures IsAuthPath(PathSegments("/auth" + rest))
    ensures Decide("/auth" + rest, hasSession) == Next
  {
    var p := "/auth" + rest;
    assert p == "" + ['/'] + ("auth" + rest);
    SplitConcat("", '/', "auth" + rest);
    FirstPiece("auth", rest);
    var q := Split("auth" + rest, '/');
    assert Split(p, '/') == [""] + q;
    NonEmptyAppend([""], q);
    NonEmptySingle("");
  }

  /** `/api/auth` and everything below it is an auth path. */
  lemma ApiAuthPath(rest: string, hasSession: bool)
    requires rest == [] || rest[0] == '/'
    ensures IsAuthPath(PathSegments("/api/auth" + rest))
    ensures Decide("/api/auth" + rest, hasSession) == Next
  {
    var p := "/api/auth" + rest;
    assert p == "" + ['/'] + ("api" + ['/'] + ("auth" + rest));
    SplitConcat("", '/', "api" + ['/'] + ("auth" + rest));
    SplitConcat("api", '/', "auth" + rest);
    SplitWhole("api", '/');
    FirstPiece("auth", rest);
    var q := Split("auth" + rest, '/');
    assert Split(p, '/') == [""] + (["api"] + q);
    NonEmptyAppend([""], ["api"] + q);
    NonEmptyAppend(["api"], q);
    NonEmptySingle("");
    NonEmptySingle("api");
  }

  /** `/api/auth/x` and `/auth` are auth paths; `/` has no segments, so it redirects without a session. */
  lemma AuthAndRootExamples()
    ensures IsAuthPath(PathSegments("/api/auth/x"))
    ensures IsAuthPath(PathSegments("/auth"))
    ensures PathSegments("/") == []
    ensures Decide("/", false) == RedirectToLogin
  {
    assert "/api/auth" + "/x" == "/api/auth/x";
    ApiAuthPath("/x", false);
    assert "/auth" + "" == "/auth";
    AuthPath("", false);
    assert "/" == "" + ['/'] + "";
    SplitConcat("", '/', "");
    assert Split("/", '/') == [""] + [""];
    NonEmptyAppend([""], [""]);
    NonEmptySingle("");
  }

  // ----------------------------------------------------------------- cookies

  /** A request cookie as `request.cookies.getAll()` yields it. */
  datatype RequestCookie = RequestCookie(name: string, value: string, path: Option<string>)

  /** `getAll()` for the client: name and value of each cookie, or none when reading them throws. */
  function ClientCookies(cookies: Option<seq<RequestCookie>>): (r: seq<(string, string)>)
    ensures cookies.None? ==> r == []
    ensures cookies.Some? ==> (
      |r| == |cookies.value|
      && forall i :: 0 <= i < |r| ==> r[i] == (cookies.value[i].name, cookies.value[i].value))
  {
    match cookies
    case None => []
    case Some(cs) => seq(|cs|, i requires 0 <= i < |cs| => (cs[i].name, cs[i].value))
  }

  /** A cookie the client asks to set on the response. */
  datatype CookieToSet = CookieToSet(name: string, value: string, options: string)

  /** The response whose cookies `setAll` fills in place. */
  class ProxyResponse {
    var cookies: map<string, (string, string)>

    constructor()
      ensures cookies == map[]
    {
      cookies := map[];
    }

    /** `setAll(cookiesToSet)`: each cookie set in turn; a later one with the same name wins. */
    method SetAll(toSet: seq<CookieToSet>)
      modifies this
      ensures cookies == Applied(old(cookies), toSet)
      ensures forall c :: c in toSet ==> c.name in cookies
      ensures forall n :: n in cookies ==> n in old(cookies) || exists c :: c in toSet && c.name == n
    {
      var i := 0;
      while i < |toSet|
        invariant 0 <= i <= |toSet|
        invariant cookies == Applied(old(cookies), toSet[..i])
      {
        assert toSet[..i + 1][..i] == toSet[..i];
        cookies := cookies[toSet[i].name := (toSet[i].value, toSet[i].options)];
        i := i + 1;
      }
      assert toSet[..|toSet|] == toSet;
      AppliedKeys(old(cookies), toSet);
    }
  }

  /** The response cookies after setting `toSet` in order. */
  function Applied(m: map<string, (string, string)>, toSet: seq<CookieToSet>): map<string, (string, string)>
    decreases |toSet|
  {
    if toSet == [] then m
    else
      var c := toSet[|toSet| - 1];
      Applied(m, toSet[..|toSet| - 1])[c.name := (c.value, c.options)]
  }

  lemma {:induction false} AppliedKeys(m: map<string, (string, string)>, toSet: seq<CookieToSet>)
    ensures forall c :: c in toSet ==> c.name in Applied(m, toSet)
    ensures forall n :: n in Applied(m, toSet) ==> n in m || exists c :: c in toSet && c.name == n
    decreases |toSet|
  {
    if toSet != [] {
      var pre := toSet[..|toSet| - 1];
      AppliedKeys(m, pre);
      assert toSet == pre + [toSet[|toSet| - 1]];
    }
  }
}
