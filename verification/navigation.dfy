/** Path predicates of the site chrome: the navbar's active-link test
    (components/navbar.tsx) and the admin-route test that decides whether the
    public navbar and footer wrap a page (components/site-chrome.tsx). */
module Navigation {
  import opened Optional

  /** `isNavActive(href)` for the current `pathname` (null before hydration). */
  function IsNavActive(pathname: Option<string>, href: string): (b: bool)
    ensures pathname == None || pathname == Some("") ==> !b
    ensures href == "/" ==> (b <==> pathname == Some("/"))
    ensures href != "/" && pathname.Some? && pathname.value != "" ==>
              (b <==> pathname.value == href || href + "/" <= pathname.value)
  {
    if pathname.None? || pathname.value == "" then false
    else if href == "/" then pathname.value == "/"
    else pathname.value == href || href + "/" <= pathname.value
  }

  /** Reference reading of the test: the path is `href` followed by nothing
      or by further path segments. */
  ghost predicate UnderPath(path: string, href: string)
  {
    exists rest :: path == href + rest && (rest == [] || rest[0] == '/')
  }

  lemma NavActiveIsUnderPath(path: string, href: string)
    requires path != "" && href != "/"
    ensures IsNavActive(Some(path), href) <==> UnderPath(path, href)
  {
    if IsNavActive(Some(path), href) {
      var rest := path[|href|..];
      assert path == href + rest;
    }
    if UnderPath(path, href) {
      var rest :| path == href + rest && (rest == [] || rest[0] == '/');
      if rest != [] {
        assert (href + "/") == path[..|href| + 1];
      }
    }
  }

  lemma NavActiveExamples()
    ensures !IsNavActive(Some("/aboutus"), "/about")
    ensures IsNavActive(Some("/services/hr"), "/services")
    ensures IsNavActive(Some("/services"), "/services")
    ensures !IsNavActive(Some("/services"), "/")
  {
    assert "/aboutus" != "/about";
    assert !("/about/" <= "/aboutus") by { assert "/aboutus"[6] == 'u'; }
    assert "/services/" <= "/services/hr" by { assert "/services/hr"[..10] == "/services/"; }
  }

  /** `isAdminRoute` in the site chrome. */
  function IsAdminRoute(pathname: string): (b: bool)
    ensures b <==> pathname == "/admin" || "/admin/" <= pathname
  {
    pathname == "/admin" || "/admin/" <= pathname
  }

  lemma AdminRouteIsUnderAdmin(pathname: string)
    ensures IsAdminRoute(pathname) <==> UnderPath(pathname, "/admin")
  {
    if pathname != "" { NavActiveIsUnderPath(pathname, "/admin"); }
  }

  lemma AdminRouteExamples()
    ensures IsAdminRoute("/admin") && IsAdminRoute("/admin/login")
    ensures !IsAdminRoute("/administrator") && !IsAdminRoute("/admi")
  {
    assert "/admin/" <= "/admin/login" by { assert "/admin/login"[..7] == "/admin/"; }
    assert !("/admin/" <= "/administrator") by { assert "/administrator"[6] == 'i'; }
  }

  /** What `SiteChrome` renders, in order. */
  datatype Part = Navbar | Children | Footer

  function SiteChrome(pathname: string): (parts: seq<Part>)
    ensures IsAdminRoute(pathname) ==> parts == [Children]
    ensures !IsAdminRoute(pathname) ==> parts == [Navbar, Children, Footer]
  {
    if IsAdminRoute(pathname) then [Children] else [Navbar, Children, Footer]
  }
}
