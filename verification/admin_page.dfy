/** app/admin/page.tsx: the server-side decision whether to render the admin
    dashboard or redirect to the login page. The identity lookup and the
    profile row are collaborator results, passed in. */
module AdminPage {
  import opened Optional

  const LoginPath: string := "/admin/login"

  datatype User = User(id: string)

  /** A `profiles` row as selected: `is_admin` may be null in the store. */
  datatype Profile = Profile(isAdmin: Option<bool>)

  /** A lookup the page performs against the backend. */
  datatype Lookup = GetUser | ProfileOf(userId: string)

  datatype Outcome = RenderDashboard | RedirectTo(path: string)

  datatype Decision = Decision(outcome: Outcome, lookups: seq<Lookup>)

  predicate IsAdmin(profile: Option<Profile>)
  {
    profile.Some? && profile.value.isAdmin == Some(true)
  }

  /** `AdminPage`: `envPresent` is `hasSupabaseEnv()`, `user` the result of
      `auth.getUser()`, `profile` the `maybeSingle()` row (consulted only
      once a user is known). */
  function Decide(envPresent: bool, user: Option<User>, profile: Option<Profile>): (d: Decision)
    ensures d.outcome == RenderDashboard <==> !envPresent || (user.Some? && IsAdmin(profile))
    ensures d.outcome.RedirectTo? ==> d.outcome.path == LoginPath
    ensures !envPresent ==> d.lookups == []
    ensures envPresent && user.None? ==> d.lookups == [GetUser]
    ensures envPresent && user.Some? ==> d.lookups == [GetUser, ProfileOf(user.value.id)]
  {
    if !envPresent then Decision(RenderDashboard, [])
    else if user.None? then Decision(RedirectTo(LoginPath), [GetUser])
    else
      var lookups := [GetUser, ProfileOf(user.value.id)];
      if !IsAdmin(profile) then Decision(RedirectTo(LoginPath), lookups)
      else Decision(RenderDashboard, lookups)
  }

}
