/** lib/supabase/env.ts: reading the hosted backend's URL and anonymous key
    from the process environment. An environment variable is absent (`None`)
    or a string; the source treats the empty string like an absent one. */
module SupabaseEnv {
  import opened Optional

  datatype Env = Env(url: string, anonKey: string)

  const MissingEnvMessage: string :=
    "Supabase env missing: set NEXT_PUBLIC_SUPABASE_URL and NEXT_PUBLIC_SUPABASE_ANON_KEY"

  /** A JavaScript truthiness test on an optional string. */
  predicate Present(v: Option<string>)
  {
    v.Some? && v.value != ""
  }

  /** `getSupabaseEnv`: both values unchanged, or null when either is
      undefined or empty. */
  function GetSupabaseEnv(url: Option<string>, anonKey: Option<string>): (r: Option<Env>)
    ensures r.None? <==> (url == None || url == Some("") || anonKey == None || anonKey == Some(""))
    ensures r.Some? ==> Some(r.value.url) == url && Some(r.value.anonKey) == anonKey
  {
    if !Present(url) || !Present(anonKey) then None
    else Some(Env(url.value, anonKey.value))
  }

  /** What `requireSupabaseEnv` does: return the pair or throw. */
  datatype Required = Returned(env: Env) | Thrown(message: string)

  function RequireSupabaseEnv(url: Option<string>, anonKey: Option<string>): (r: Required)
    ensures r.Thrown? <==> GetSupabaseEnv(url, anonKey).None?
    ensures r.Thrown? ==> r.message == MissingEnvMessage
    ensures r.Returned? ==> Some(r.env) == GetSupabaseEnv(url, anonKey)
  {
    match GetSupabaseEnv(url, anonKey)
    case None => Thrown(MissingEnvMessage)
    case Some(env) => Returned(env)
  }

  function HasSupabaseEnv(url: Option<string>, anonKey: Option<string>): (b: bool)
    ensures b <==> GetSupabaseEnv(url, anonKey).Some?
    ensures b <==> Present(url) && Present(anonKey)
  {
    GetSupabaseEnv(url, anonKey) != None
  }
}
