/** The signed-in session both app generations share through a React context: the
    bearer token held in state and persisted under `auth_token`, `login`/`logout`, the
    restore on mount, and the request `authFetch` builds. */
module Auth {
  import opened Text
  import opened JsValues

  /** The token `login(arg)` reads: `typeof arg === 'string' ? arg : arg?.token`. */
  function TokenOf(arg: Js): Js {
    if arg.Str? then arg else OptProp(arg, "token")
  }

  /** The token a freshly mounted provider holds once its effect has read `auth_token`:
      `if (saved) setToken(saved)`, starting from `null`. */
  function Restored(saved: Option<string>): (t: Js)
    ensures t.Null? <==> saved.None? || saved.value == ""
    ensures !t.Null? ==> t == Str(saved.value) && Truthy(t)
  {
    if saved.Some? && saved.value != "" then Str(saved.value) else Null
  }

  /** The header value `Bearer ${token}`. */
  function Bearer(token: Js): string {
    "Bearer " + ToStr(token)
  }

  /** What a reload brings back after a successful login: `localStorage.setItem` keeps
      `String(t)`, so a string token comes back as it was, and any other token comes
      back as its text and yields the same `Authorization` header. Only a token whose
      text is empty (an empty array, say) is lost. */
  lemma LoginSurvivesReload(arg: Js)
    requires Truthy(TokenOf(arg))
    ensures var t := TokenOf(arg);
            Restored(Some(ToStr(t))).Null? <==> ToStr(t) == ""
    ensures var t := TokenOf(arg);
            ToStr(t) != "" ==> Bearer(Restored(Some(ToStr(t)))) == Bearer(t)
    ensures TokenOf(arg).Str? ==> Restored(Some(ToStr(TokenOf(arg)))) == TokenOf(arg)
  {
  }

  /** After `logout` the stored entry is gone, so a reload starts signed out. */
  lemma LogoutSurvivesReload()
    ensures Restored(None) == Null
  {
  }

  /** The `AuthProvider` state: `token` and the `auth_token` storage entry. */
  class Session {
    var token: Js
    var saved: Option<string>

    /** `useState(null)`, over whatever storage already holds. */
    constructor (saved: Option<string>)
      ensures token == Null && this.saved == saved
    {
      token := Null;
      this.saved := saved;
    }

    /** The mount effect: a non-empty stored token replaces the state. */
    method Restore()
      modifies this`token
      ensures saved.Some? && saved.value != "" ==> token == Str(saved.value)
      ensures saved.None? || saved.value == "" ==> token == old(token)
      ensures old(token) == Null ==> token == Restored(saved)
    {
      if saved.Some? && saved.value != "" {
        token := Str(saved.value);
      }
    }

    /** `login(arg)`: a falsy token is refused and nothing changes; otherwise the token is
        set and persisted as text. */
    method Login(arg: Js) returns (ok: bool)
      modifies this
      ensures ok <==> Truthy(TokenOf(arg))
      ensures ok ==> token == TokenOf(arg) && saved == Some(ToStr(TokenOf(arg)))
      ensures !ok ==> token == old(token) && saved == old(saved)
    {
      var t := TokenOf(arg);
      if !Truthy(t) {
        return false;
      }
      token := t;
      saved := Some(ToStr(t));
      ok := true;
    }

    /** `logout()`: clears the state and the stored entry. */
    method Logout()
      modifies this
      ensures token == Null && saved == None
    {
      token := Null;
      saved := None;
    }
  }

  // ---------------------------------------------------------------------------------
  // authFetch
  // ---------------------------------------------------------------------------------

  /** Request headers by lower-case name, as the `Headers` object holds them. */
  type Headers = map<string, string>

  /** `init.body`, by the kinds the code tells apart. */
  datatype Body = NoBody | Text(s: string) | FormData | Blob

  /** `init.body && !(init.body instanceof FormData)`: when a JSON content type is added. */
  predicate JsonBody(b: Body) {
    (b.Text? && b.s != "") || b.Blob?
  }

  datatype Credentials = Include | Omit

  datatype Request = Request(url: string, headers: Headers, credentials: Credentials, body: Body)

  /** `import.meta.env.VITE_API_BASE || ''`. */
  function ApiBase(env: Option<string>): string {
    if env.Some? then env.value else ""
  }

  /** `VITE_USE_CREDENTIALS === '1' ? 'include' : 'omit'`. */
  function CredentialsFor(env: Option<string>): (c: Credentials)
    ensures c == Include <==> env == Some("1")
  {
    if env == Some("1") then Include else Omit
  }

  /** The request `authFetch(path, init)` hands to `fetch`. The caller's headers always
      win: `Authorization` is added only for a truthy token and `Content-Type` only for a
      body that is neither empty nor form data, each only when the caller did not set it. */
  function AuthRequest(apiBaseEnv: Option<string>, credEnv: Option<string>, token: Js,
                       path: string, given: Headers, body: Body): (r: Request)
    ensures StartsWith(path, "http") ==> r.url == path
    ensures !StartsWith(path, "http") ==> r.url == ApiBase(apiBaseEnv) + path
    ensures forall k :: k in given ==> k in r.headers && r.headers[k] == given[k]
    ensures forall k :: k in r.headers ==> k in given || k == "authorization" || k == "content-type"
    ensures "authorization" in r.headers <==> "authorization" in given || Truthy(token)
    ensures "authorization" !in given && Truthy(token) ==> r.headers["authorization"] == Bearer(token)
    ensures "content-type" in r.headers <==> "content-type" in given || JsonBody(body)
    ensures "content-type" !in given && JsonBody(body) ==> r.headers["content-type"] == "application/json"
    ensures r.credentials == Include <==> credEnv == Some("1")
    ensures r.body == body
  {
    var url := if StartsWith(path, "http") then path else ApiBase(apiBaseEnv) + path;
    var h1 := if Truthy(token) && "authorization" !in given then given["authorization" := Bearer(token)] else given;
    var h2 := if "content-type" !in h1 && JsonBody(body) then h1["content-type" := "application/json"] else h1;
    Request(url, h2, CredentialsFor(credEnv), body)
  }

  /** Signed out, a request goes out with the caller's headers plus at most the JSON
      content type. */
  lemma SignedOutAddsNoAuthorization(apiBaseEnv: Option<string>, credEnv: Option<string>, path: string,
                                     given: Headers, body: Body)
    requires "authorization" !in given
    ensures "authorization" !in AuthRequest(apiBaseEnv, credEnv, Null, path, given, body).headers
  {
  }
}

/** The earlier app's `authFetch`: the URL and the rest of `init` pass through, and a
    token always sets `Authorization`, replacing a caller's value. Its `login`, `logout`
    and restore on mount are the same code as the current app's (`Auth.Session`). */
module LegacyAuth {
  import opened JsValues
  import Auth

  /** The headers the earlier `authFetch` sends. */
  function AuthHeaders(token: Js, given: Auth.Headers): (r: Auth.Headers)
    ensures Truthy(token) ==> "authorization" in r && r["authorization"] == Auth.Bearer(token)
    ensures !Truthy(token) ==> r == given
    ensures forall k :: k != "authorization" ==> (k in r <==> k in given)
    ensures forall k :: k in given && k != "authorization" ==> r[k] == given[k]
  {
    if Truthy(token) then given["authorization" := Auth.Bearer(token)] else given
  }

  /** The two generations send the same `Authorization` header except when the caller
      set one of its own and a token exists: the current app keeps the caller's value,
      the earlier one replaces it. */
  lemma AuthorizationRules(apiBaseEnv: Option<string>, credEnv: Option<string>, token: Js,
                           path: string, given: Auth.Headers, body: Auth.Body)
    ensures var now := Auth.AuthRequest(apiBaseEnv, credEnv, token, path, given, body).headers;
            var before := AuthHeaders(token, given);
            ("authorization" in now <==> "authorization" in before)
    ensures var now := Auth.AuthRequest(apiBaseEnv, credEnv, token, path, given, body).headers;
            var before := AuthHeaders(token, given);
            "authorization" in now && now["authorization"] != before["authorization"]
            <==> "authorization" in given && Truthy(token) && given["authorization"] != Auth.Bearer(token)
  {
  }
}
