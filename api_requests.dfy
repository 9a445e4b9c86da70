/**
 * The API Gateway request fields the listing endpoints read
 * (src/backend/get_user_pdfs.py and src/backend/get_processed_pdfs.py):
 * the HTTP method and the Cognito authorizer's claims.
 */
module ApiRequests {
  import opened Options

  /** A request: its HTTP method, if given, and the authorizer's claims (empty when there are none). */
  datatype ApiEvent = ApiEvent(httpMethod: Option<string>, claims: map<string, string>)

  /** A CORS preflight request. */
  predicate IsPreflight(e: ApiEvent)
  {
    e.httpMethod == Some("OPTIONS")
  }

  /**
   * _get_user_id together with the handlers' `if not user_id` test: the
   * `sub` claim when it is present and non-empty, otherwise nothing.
   */
  function AuthenticatedUser(e: ApiEvent): (r: Option<string>)
    ensures r.Some? <==> "sub" in e.claims && e.claims["sub"] != ""
    ensures r.Some? ==> r.value == e.claims["sub"] && r.value != ""
  {
    if "sub" in e.claims && e.claims["sub"] != "" then Some(e.claims["sub"]) else None
  }
}
