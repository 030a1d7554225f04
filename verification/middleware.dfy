/** middleware.ts: the edge guard in front of every admin page. The session
    refresh response comes from the backend's helper and is opaque here (the
    type parameter `R`); the guard either returns it untouched or replaces it
    with a redirect to the login page. */
module AdminMiddleware {
  import Text
  import Navigation

  const LoginPath: string := "/admin/login"
  const AccessTokenCookie: string := "sb-access-token"

  datatype Cookie = Cookie(name: string, value: string)

  /** One `name=value` pair of a URL's query, in order. */
  datatype Param = Param(name: string, value: string)

  /** The parts of `request.nextUrl` the guard reads or rewrites; `origin`
      stands for everything else a clone keeps (scheme, host, base path). */
  datatype Url = Url(origin: string, pathname: string, query: seq<Param>)

  datatype Response<R> = Continue(session: R) | Redirect(location: Url)

  function Without(ps: seq<Param>, name: string): (r: seq<Param>)
    ensures |r| <= |ps|
    ensures forall i :: 0 <= i < |r| ==> r[i].name != name
  {
    if ps == [] then []
    else (if ps[0].name == name then [] else [ps[0]]) + Without(ps[1..], name)
  }

  function Count(ps: seq<Param>, name: string): nat
  {
    if ps == [] then 0 else (if ps[0].name == name then 1 else 0) + Count(ps[1..], name)
  }

  /** `URLSearchParams.set(name, value)`: the first pair with that name takes
      the new value and every later one is dropped; with none, the pair is
      appended. */
  function SetParam(ps: seq<Param>, name: string, value: string): (r: seq<Param>)
    ensures Count(r, name) == 1 && Param(name, value) in r
    ensures Without(r, name) == Without(ps, name)
    ensures Count(ps, name) == 0 ==> r == ps + [Param(name, value)]
    // with a pair of that name, the first one is replaced in place
    ensures forall i :: 0 <= i < |ps| && ps[i].name == name && Count(ps[..i], name) == 0 ==>
              r == ps[..i] + [Param(name, value)] + Without(ps[i + 1..], name)
  {
    if ps == [] then [Param(name, value)]
    else if ps[0].name == name then
      var rest := Without(ps[1..], name);
      NoneLeft(rest, name);
      WithoutIdempotent(ps[1..], name);
      FirstReplaced(ps, name, value);
      [Param(name, value)] + rest
    else
      var tail := SetParam(ps[1..], name, value);
      LaterReplaced(ps, name, value, tail);
      [ps[0]] + tail
  }

  /** `r` is `ps` with its first pair named `name` set to `value` and the
      later ones dropped. */
  predicate ReplacesFirst(ps: seq<Param>, name: string, value: string, r: seq<Param>)
  {
    forall i :: 0 <= i < |ps| && ps[i].name == name && Count(ps[..i], name) == 0 ==>
      r == ps[..i] + [Param(name, value)] + Without(ps[i + 1..], name)
  }

  lemma FirstReplaced(ps: seq<Param>, name: string, value: string)
    requires ps != [] && ps[0].name == name
    ensures ReplacesFirst(ps, name, value, [Param(name, value)] + Without(ps[1..], name))
  {
    forall i | 0 < i < |ps| ensures Count(ps[..i], name) > 0 {
      PrefixCount(ps, name, i);
    }
  }

  lemma LaterReplaced(ps: seq<Param>, name: string, value: string, tail: seq<Param>)
    requires ps != [] && ps[0].name != name
    requires ReplacesFirst(ps[1..], name, value, tail)
    ensures ReplacesFirst(ps, name, value, [ps[0]] + tail)
  {
    forall i | 0 <= i < |ps| && ps[i].name == name && Count(ps[..i], name) == 0
      ensures [ps[0]] + tail == ps[..i] + [Param(name, value)] + Without(ps[i + 1..], name)
    {
      PrefixCount(ps, name, i);
      assert ps[1..][i - 1] == ps[i] && ps[1..][i..] == ps[i + 1..];
    }
  }

  /** A prefix of length `i > 0` is the head followed by a prefix of the tail. */
  lemma PrefixCount(ps: seq<Param>, name: string, i: nat)
    requires 0 < i <= |ps|
    ensures ps[..i] == [ps[0]] + ps[1..][..i - 1]
    ensures Count(ps[..i], name) == (if ps[0].name == name then 1 else 0) + Count(ps[1..][..i - 1], name)
  {
    assert ps[..i][1..] == ps[1..][..i - 1];
  }

  lemma {:induction false} NoneLeft(ps: seq<Param>, name: string)
    requires forall i :: 0 <= i < |ps| ==> ps[i].name != name
    ensures Count(ps, name) == 0 && Without(ps, name) == ps
  {
    if ps != [] {
      NoneLeft(ps[1..], name);
      assert ps == [ps[0]] + ps[1..];
    }
  }

  lemma WithoutIdempotent(ps: seq<Param>, name: string)
    ensures Without(Without(ps, name), name) == Without(ps, name)
  {
    NoneLeft(Without(ps, name), name);
  }

  /** `request.cookies.get('sb-access-token')` finds a cookie. */
  function HasAccessToken(cookies: seq<Cookie>): (b: bool)
    ensures b <==> AccessTokenCookie in set c | c in cookies :: c.name
  {
    exists i :: 0 <= i < |cookies| && cookies[i].name == AccessTokenCookie
  }

  /** A cookie written by the backend's auth helpers: `sb-<project>-auth-token`
      and its chunks. */
  function IsAuthHelpersCookie(name: string): (b: bool)
    ensures b <==> "sb-" <= name && exists k :: Text.OccursAt(name, "auth-token", k)
  {
    "sb-" <= name && Text.IndexOf(name, "auth-token") >= 0
  }

  /** `getAll().some(...)`: some cookie is an auth-helpers cookie. */
  function HasAuthHelpersToken(cookies: seq<Cookie>): (b: bool)
    ensures b <==> exists c :: c in cookies && IsAuthHelpersCookie(c.name)
  {
    exists i :: 0 <= i < |cookies| && IsAuthHelpersCookie(cookies[i].name)
  }

  /** `middleware(request)`, given the session response `updateSession`
      produced for it. */
  function Guard<R>(session: R, url: Url, cookies: seq<Cookie>): (r: Response<R>)
    ensures url.pathname == LoginPath ==> r == Continue(session)
    ensures r.Redirect? <==>
              && url.pathname != LoginPath
              && "/admin" <= url.pathname
              && !HasAccessToken(cookies)
              && !HasAuthHelpersToken(cookies)
    ensures r.Continue? ==> r.session == session
    ensures r.Redirect? ==>
              && r.location.origin == url.origin
              && r.location.pathname == LoginPath
              && Count(r.location.query, "next") == 1
              && Param("next", url.pathname) in r.location.query
              && Without(r.location.query, "next") == Without(url.query, "next")
  {
    if url.pathname == LoginPath then Continue(session)
    else if "/admin" <= url.pathname && !HasAccessToken(cookies) && !HasAuthHelpersToken(cookies) then
      Redirect(url.(pathname := LoginPath, query := SetParam(url.query, "next", url.pathname)))
    else Continue(session)
  }

  /** The `matcher` (`/admin/:path*`) runs the guard only on `/admin` and the
      paths below it, so of the `startsWith('/admin')` test only that part is
      ever exercised: on a matched path, the guard redirects exactly when the
      path is not the login page and no session cookie is present. */
  lemma MatchedPathsGuarded<R>(session: R, url: Url, cookies: seq<Cookie>)
    requires Navigation.IsAdminRoute(url.pathname)
    ensures Guard(session, url, cookies).Redirect? <==>
              url.pathname != LoginPath && !HasAccessToken(cookies) && !HasAuthHelpersToken(cookies)
  {
    assert "/admin" <= url.pathname by {
      if url.pathname != "/admin" {
        assert url.pathname[..6] == "/admin/"[..6];
      }
    }
  }

  lemma AuthHelpersCookieExample()
    ensures IsAuthHelpersCookie("sb-abcd-auth-token")
    ensures IsAuthHelpersCookie("sb-abcd-auth-token.0")
    ensures !IsAuthHelpersCookie(AccessTokenCookie)
  {
    assert Text.OccursAt("sb-abcd-auth-token", "auth-token", 8);
    assert Text.OccursAt("sb-abcd-auth-token.0", "auth-token", 8);
    var s := AccessTokenCookie;
    forall j | 0 <= j <= |s| - 10 ensures !Text.OccursAt(s, "auth-token", j) {
      assert s[j..j + 10][0] == s[j];
      assert s[j..j + 10][1] == s[j + 1];
    }
  }
}
