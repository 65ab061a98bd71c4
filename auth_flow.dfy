/** How the token issued by sign-in meets the guard in front of the mutating routes. */
module AuthFlow {
  import opened Wrappers
  import opened Jwt
  import opened Store
  import AuthMiddleware
  import AuthController

  /**
   * With a verifier that accepts what the signer issued, the token of a
   * successful sign-in, sent as "Bearer <token>", passes `verifyToken` with the
   * user's id and email, and nothing else, as its claims.
   */
  lemma SignedInTokenPassesVerifyToken(
    body: map<string, string>,
    lookup: Option<string> -> Call<Reply<AuthController.UserRow>>,
    compare: (Option<string>, string) -> Call<bool>,
    sign: SignRequest -> Call<string>,
    verify: Verifier)
    requires AuthController.SignIn(body, lookup, compare, sign).response.status == 200
    requires forall r :: sign(r).Returned? ==> verify(sign(r).value) == Some(r.payload)
    ensures var o := AuthController.SignIn(body, lookup, compare, sign);
      var user := AuthController.FoundUser(lookup(AuthController.Field(body, "email"))).value;
      AuthMiddleware.CheckToken(Some(AuthMiddleware.BearerPrefix + o.response.body.token), verify)
        == AuthMiddleware.Verified(Claims(user.id, user.email))
  {
    var o := AuthController.SignIn(body, lookup, compare, sign);
    AuthMiddleware.ExtractTokenOfBearer(o.response.body.token);
  }
}
