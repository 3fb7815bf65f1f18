/** middleware.ts: the guard in front of every `/admin` page. The result of
    verifying the session token (`jwtVerify`, signature and expiry) is an
    input: the middleware only decides what to do with it. */
module Middleware {

  const LoginPath: string := "/admin/login"
  const MinSecretLength: nat := 32

  datatype Outcome = Next | RedirectToLogin

  /** The decision `middleware(request)` takes for a request to `pathname`,
      with `secret` the configured JWT_SECRET ("" when unset), `cookie` the
      value of the admin_session cookie ("" when absent) and `tokenVerifies`
      whether the token verifies against the secret. */
  function Decide(pathname: string, secret: string, cookie: string, tokenVerifies: bool): (o: Outcome)
    ensures o == Next <==>
      || !("/admin" <= pathname)
      || pathname == LoginPath || LoginPath + "/" <= pathname
      || (|secret| >= MinSecretLength && cookie != "" && tokenVerifies)
  {
    if !("/admin" <= pathname) then Next
    else if pathname == LoginPath || LoginPath + "/" <= pathname then Next
    else if secret == "" || |secret| < MinSecretLength then RedirectToLogin
    else if cookie == "" then RedirectToLogin
    else if tokenVerifies then Next
    else RedirectToLogin
  }

  /** Everything outside `/admin` passes untouched. */
  lemma OutsideAdminPasses(pathname: string, secret: string, cookie: string, tokenVerifies: bool)
    requires !("/admin" <= pathname)
    ensures Decide(pathname, secret, cookie, tokenVerifies) == Next
  {
  }

  /** The login page and everything below it pass with no check at all. */
  lemma LoginPagePasses(pathname: string, secret: string, cookie: string, tokenVerifies: bool)
    requires pathname == LoginPath || LoginPath + "/" <= pathname
    ensures Decide(pathname, secret, cookie, tokenVerifies) == Next
  {
    assert "/admin" <= LoginPath;
    if LoginPath + "/" <= pathname {
      assert pathname[..6] == (LoginPath + "/")[..6];
    }
  }

  /** Any other admin path passes exactly when the secret is at least 32
      characters long, a session cookie is present and its token verifies;
      in every other case the request is sent to the login page. */
  lemma ProtectedPathRule(pathname: string, secret: string, cookie: string, tokenVerifies: bool)
    requires "/admin" <= pathname
    requires pathname != LoginPath && !(LoginPath + "/" <= pathname)
    ensures Decide(pathname, secret, cookie, tokenVerifies) == Next
        <==> |secret| >= MinSecretLength && cookie != "" && tokenVerifies
    ensures |secret| < MinSecretLength ==> Decide(pathname, secret, cookie, tokenVerifies) == RedirectToLogin
    ensures cookie == "" ==> Decide(pathname, secret, cookie, tokenVerifies) == RedirectToLogin
  {
  }
}
