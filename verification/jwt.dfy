/** The claims a token carries and the token itself, without any cryptography. */
module Jwt {
  import opened Wrappers

  /** The resolved context of one authentication (`jwt::Auth`). */
  datatype Auth = Auth(
    id: string,
    username: string,
    domain_id: Option<string>,
    org_id: seq<string>,
    role_id: seq<int>,
    role_level: int,
    is_admin: bool)

  /** A minted token: here just the claims it would sign. */
  datatype Token = Token(claims: Auth)

  /** `jwt::generate_token`: the token carries exactly the claims it is minted from. */
  function GenerateToken(claims: Auth): (t: Token)
    ensures t.claims == claims
  {
    Token(claims)
  }
}
