/** The admin guard in front of the protected routes
    (middleware/authMiddleware.js): a decision over the `Authorization`
    header and the claims the token decodes to.  Token verification is a
    parameter: `verify(token)` is the decoded payload, `None` when the
    signature or the expiry check fails. */
module AuthMiddleware {
  import opened Wrappers
  import opened Text
  import AdminController

  /** The decoded payload fields the guard reads; `None` when absent. */
  datatype Claims = Claims(id: Option<string>, role: Option<string>)

  /** What the guard leaves in `req.admin` before calling `next()`. */
  datatype RequestAdmin = RequestAdmin(id: string, role: string)

  datatype Decision = Allow(admin: RequestAdmin) | Deny(status: int, error: string)

  const BEARER := "Bearer "
  const NO_TOKEN := "No token provided, access denied"
  const BAD_FORMAT := "Invalid token format, access denied"
  const BAD_TOKEN := "Invalid or expired token"
  const NO_ID := "Invalid token, missing admin ID"
  const NOT_ADMIN := "Access denied, admin role required"

  /** The header's token: the first "Bearer " removed. */
  function TokenOf(header: string): string
  {
    ReplaceFirst(header, BEARER, "")
  }

  /** `authMiddleware`, check by check. */
  function Authorize(header: Option<string>, verify: string -> Option<Claims>): (d: Decision)
    ensures header.None? || header.value == "" ==> d == Deny(UNAUTHORIZED, NO_TOKEN)
    ensures header.Some? && header.value != "" && !StartsWith(header.value, BEARER) ==>
              d == Deny(UNAUTHORIZED, BAD_FORMAT)
    ensures header.Some? && StartsWith(header.value, BEARER) ==>
              var token := header.value[|BEARER|..];
              if token == "" then d == Deny(UNAUTHORIZED, NO_TOKEN)
              else if verify(token).None? then d == Deny(UNAUTHORIZED, BAD_TOKEN)
              else if verify(token).value.id.None? || verify(token).value.id.value == "" then
                d == Deny(UNAUTHORIZED, NO_ID)
              else if verify(token).value.role != Some(AdminController.ADMIN_ROLE) then
                d == Deny(FORBIDDEN, NOT_ADMIN)
              else d == Allow(RequestAdmin(verify(token).value.id.value, AdminController.ADMIN_ROLE))
  {
    if header.None? || header.value == "" then Deny(UNAUTHORIZED, NO_TOKEN)
    else if !StartsWith(header.value, BEARER) then Deny(UNAUTHORIZED, BAD_FORMAT)
    else
      var token := TokenOf(header.value);
      ReplacePrefix(header.value, BEARER);
      if token == "" then Deny(UNAUTHORIZED, NO_TOKEN)
      else
        match verify(token)
        case None => Deny(UNAUTHORIZED, BAD_TOKEN)
        case Some(claims) =>
          if claims.id.None? || claims.id.value == "" then Deny(UNAUTHORIZED, NO_ID)
          else if claims.role != Some(AdminController.ADMIN_ROLE) then Deny(FORBIDDEN, NOT_ADMIN)
          else Allow(RequestAdmin(claims.id.value, claims.role.value))
  }

  /** A request passes exactly when the header is "Bearer " followed by a
      token that verifies to claims with an id and the admin role; the
      admin left for the handlers is then authenticated. */
  lemma AllowExactly(header: Option<string>, verify: string -> Option<Claims>)
    ensures Authorize(header, verify).Allow? <==>
              && header.Some? && StartsWith(header.value, BEARER)
              && var token := header.value[|BEARER|..];
                 && token != ""
                 && verify(token).Some?
                 && verify(token).value.id.Some? && verify(token).value.id.value != ""
                 && verify(token).value.role == Some(AdminController.ADMIN_ROLE)
    ensures Authorize(header, verify).Allow? ==>
              AdminController.Authenticated(Some(Authorize(header, verify).admin.id))
  {
  }

  /** A token issued by a successful login passes the guard, carrying the
      id of the admin who logged in. */
  lemma LoginTokenPasses(claims: AdminController.TokenClaims, token: string, verify: string -> Option<Claims>)
    requires claims.role == AdminController.ADMIN_ROLE && claims.id != "" && token != ""
    requires verify(token) == Some(Claims(Some(claims.id), Some(claims.role)))
    ensures Authorize(Some(BEARER + token), verify) == Allow(RequestAdmin(claims.id, AdminController.ADMIN_ROLE))
  {
    var h := BEARER + token;
    assert h[..|BEARER|] == BEARER;
    assert h[|BEARER|..] == token;
  }

  /** Every denial is a 401, except a verified token without the admin
      role, which is a 403. */
  lemma DenialStatus(header: Option<string>, verify: string -> Option<Claims>)
    ensures Authorize(header, verify).Deny? ==>
              (Authorize(header, verify).status == FORBIDDEN <==> Authorize(header, verify).error == NOT_ADMIN)
    ensures Authorize(header, verify).Deny? ==>
              Authorize(header, verify).status == UNAUTHORIZED || Authorize(header, verify).status == FORBIDDEN
  {
  }
}
