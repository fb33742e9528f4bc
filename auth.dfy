/** The authentication middleware as a decision: from the `Authorization`
    header, the token verifier and the user lookup to either the caller's
    identity or a 401/403 answer. Token signatures and the user store are
    parameters. */
module Auth {
  import opened Wrappers
  import opened Text

  /** The fields of a stored user that the middleware reads. */
  datatype Account = Account(id: string, role: string, status: string)

  /** `User.findById`: a user, none, or a thrown error (a malformed id). */
  datatype Lookup = Found(account: Account) | Missing | LookupFailed

  /** What the middleware attaches to the request before calling the handler. */
  datatype Identity = Identity(id: string, role: string)

  const BearerPrefix: string := "Bearer "

  /** `header.startsWith('Bearer ') ? header.slice(7) : null`, a missing header read as empty. */
  function BearerToken(header: Option<string>): (token: Option<string>)
    ensures token.Some? <==> header.Some? && StartsWith(header.value, BearerPrefix)
    ensures token.Some? ==> header.value == BearerPrefix + token.value
  {
    var h := OrElse(header, "");
    if StartsWith(h, BearerPrefix) then
      assert h == h[..7] + h[7..];
      Some(h[7..])
    else None
  }

  lemma BearerTokenOf(t: string)
    ensures BearerToken(Some(BearerPrefix + t)) == Some(t)
  {
    assert (BearerPrefix + t)[7..] == t;
  }

  /** `auth`: the verifier yields the token's subject or fails (bad signature,
      expiry); a failure of the verifier or of the lookup ends in the same 401. */
  function Authenticate(header: Option<string>, verify: string -> Option<string>, lookup: string -> Lookup): (r: Response<Identity>)
    ensures !Truthy(BearerToken(header)) <==> r == Error(Fail(401, Unauthorized))
    ensures r.Ok? <==>
      && Truthy(BearerToken(header))
      && verify(BearerToken(header).value).Some?
      && lookup(verify(BearerToken(header).value).value).Found?
      && lookup(verify(BearerToken(header).value).value).account.status != "inactive"
    ensures r.Ok? ==>
      var account := lookup(verify(BearerToken(header).value).value).account;
      r.body == Identity(account.id, account.role)
    ensures r.Error? ==> r.failure.Fail? && r.failure.code in {401, 403}
    ensures r == Error(Fail(403, AccountInactive)) <==>
      && Truthy(BearerToken(header))
      && verify(BearerToken(header).value).Some?
      && lookup(verify(BearerToken(header).value).value).Found?
      && lookup(verify(BearerToken(header).value).value).account.status == "inactive"
  {
    var token := BearerToken(header);
    if !Truthy(token) then Error(Fail(401, Unauthorized))
    else
      match verify(token.value)
      case None => Error(Fail(401, TokenRejected))
      case Some(subject) =>
        match lookup(subject)
        case LookupFailed => Error(Fail(401, TokenRejected))
        case Missing => Error(Fail(401, InvalidToken))
        case Found(account) =>
          if account.status == "inactive" then Error(Fail(403, AccountInactive))
          else Ok(Identity(account.id, account.role))
  }

  /** Without a bearer token neither the verifier nor the store is consulted. */
  lemma NoTokenNoLookup(header: Option<string>, v1: string -> Option<string>, v2: string -> Option<string>,
                        l1: string -> Lookup, l2: string -> Lookup)
    requires !Truthy(BearerToken(header))
    ensures Authenticate(header, v1, l1) == Authenticate(header, v2, l2)
  {
  }

  /** A caller with a valid token for an active account passes with that account's id and role. */
  lemma ActiveAccountPasses(t: string, verify: string -> Option<string>, lookup: string -> Lookup, subject: string, account: Account)
    requires t != "" && verify(t) == Some(subject) && lookup(subject) == Found(account) && account.status != "inactive"
    ensures Authenticate(Some(BearerPrefix + t), verify, lookup) == Ok(Identity(account.id, account.role))
  {
    BearerTokenOf(t);
  }
}
