/**
 * The clerk-auth middleware: reads a `Bearer` token, has it verified, and
 * resolves or provisions the local user for the token's subject, which it
 * stores in `ctx.state.user`. It never rejects a request.
 */
module ClerkAuth {
  import opened Wrappers
  import opened Js
  import opened Http
  import opened ClerkUser

  /** Verified token claims: the subject and the optional profile claims. */
  datatype Claims = Claims(sub: string, email: Option<string>, firstName: Option<string>, lastName: Option<string>)

  /** The store, `ctx.state.user`, and what the middleware did, after the middleware ran. */
  datatype AuthResult = AuthResult(store: Store, stateUser: Option<User>, outcome: Outcome)

  /**
   * The token verifier (`verifyToken` with the configured secret key), an
   * oracle: `None` when it rejects the token.
   */
  type Verifier = (string, Option<string>) -> Option<Claims>

  const BearerPrefix := "Bearer "
  const PlaceholderDomain := "@clerk.user"

  /**
   * The token of an `Authorization` header: present exactly when the header
   * starts with `Bearer `, and then the rest of the header after those seven
   * characters.
   */
  function BearerToken(header: Option<string>): (t: Option<string>)
    ensures t.Some? <==> header.Some? && StartsWith(header.value, BearerPrefix)
    ensures t.Some? ==> header.value == BearerPrefix + t.value
  {
    if header.Some? && StartsWith(header.value, BearerPrefix) then Some(Slice(header.value, 7)) else None
  }

  lemma BearerRoundTrip(t: string)
    ensures BearerToken(Some(BearerPrefix + t)) == Some(t)
  {
    assert (BearerPrefix + t)[..|BearerPrefix|] == BearerPrefix;
  }

  /** The claims of a verified bearer token, if the request carries one. */
  function VerifiedClaims(header: Option<string>, secretKey: Option<string>, verify: Verifier): Option<Claims> {
    match BearerToken(header)
    case None => None
    case Some(t) => verify(t, secretKey)
  }

  /**
   * The record provisioned for unseen claims: email falls back to
   * `<sub>@clerk.user`, username to the email claim and then `sub`, and the
   * full name is the non-empty first/last names joined by one space, or null.
   */
  function ProvisionData(c: Claims): (d: NewUser)
    ensures d.clerkId == c.sub
    ensures Truthy(c.email) ==> d.email == c.email.value && d.username == c.email.value
    ensures !Truthy(c.email) ==> d.email == c.sub + PlaceholderDomain && d.username == c.sub
    ensures d.fullName == JoinNames(c.firstName, c.lastName)
    ensures d.email != ""
  {
    NewUser(c.sub, Or(c.email, c.sub + PlaceholderDomain), Or(c.email, c.sub), JoinNames(c.firstName, c.lastName))
  }

  /**
   * The middleware. `storeFails` stands for a rejected store call; it is
   * caught like a verification failure. `prior` is `ctx.state.user` on entry.
   */
  function Authenticate(st: Store, secretKey: Option<string>, header: Option<string>, verify: Verifier,
                        storeFails: bool, prior: Option<User>): (r: AuthResult)
    ensures r.outcome == Next
    ensures BearerToken(header).None? ==> r.store == st && r.stateUser == prior
    ensures VerifiedClaims(header, secretKey, verify).None? || storeFails ==> r.store == st && r.stateUser == prior
    ensures VerifiedClaims(header, secretKey, verify).Some? && !storeFails ==>
              var c := VerifiedClaims(header, secretKey, verify).value;
              && r.stateUser.Some?
              && HasClerkId(r.stateUser.value, c.sub)
              && (FindByClerkId(st, c.sub).Some? ==> r.store == st && r.stateUser == FindByClerkId(st, c.sub))
              && (FindByClerkId(st, c.sub).None? ==>
                    r.store.users == st.users + [r.stateUser.value] &&
                    r.stateUser.value.confirmed &&
                    r.stateUser.value.email == Or(c.email, c.sub + PlaceholderDomain) &&
                    r.stateUser.value.username == Or(c.email, c.sub) &&
                    r.stateUser.value.fullName == JoinNames(c.firstName, c.lastName))
  {
    match VerifiedClaims(header, secretKey, verify)
    case None => AuthResult(st, prior, Next)
    case Some(c) =>
      if storeFails then AuthResult(st, prior, Next)
      else
        match FindByClerkId(st, c.sub)
        case Some(u) => AuthResult(st, Some(u), Next)
        case None =>
          var created := CreateFromClerk(st, ProvisionData(c));
          AuthResult(created.store, Some(created.user), Next)
  }

  /**
   * One request keeps the store invariant: it provisions only when the lookup
   * found nothing, so afterwards exactly one user holds the subject's Clerk id
   * and that user is the request's principal.
   */
  lemma AuthenticateKeepsValid(st: Store, secretKey: Option<string>, header: Option<string>, verify: Verifier,
                               storeFails: bool, prior: Option<User>)
    requires Valid(st)
    ensures Valid(Authenticate(st, secretKey, header, verify, storeFails, prior).store)
    ensures VerifiedClaims(header, secretKey, verify).Some? && !storeFails ==>
              var r := Authenticate(st, secretKey, header, verify, storeFails, prior);
              var sub := VerifiedClaims(header, secretKey, verify).value.sub;
              FindByClerkId(r.store, sub) == r.stateUser && CountClerkId(r.store.users, sub) == 1
  {
    var r := Authenticate(st, secretKey, header, verify, storeFails, prior);
    var vc := VerifiedClaims(header, secretKey, verify);
    if vc.Some? && !storeFails {
      var c := vc.value;
      if FindByClerkId(st, c.sub).None? {
        CreatePreservesValid(st, ProvisionData(c));
      }
      CountAtMostOne(r.store.users, r.store.nextId, c.sub);
    }
  }

  /** The first example of provisioning: every claim present. */
  lemma ProvisionWithAllClaims()
    ensures var d := ProvisionData(Claims("ext_1", Some("a@b.com"), Some("A"), Some("B")));
            d.email == "a@b.com" && d.username == "a@b.com" && d.fullName == Some("A B")
  {
    assert Truthy(Some("A")) && Truthy(Some("B")) && Truthy(Some("a@b.com"));
    assert "A" + " " + "B" == "A B";
    assert JoinNames(Some("A"), Some("B")) == Some("A B");
  }

  /** The second example of provisioning: only the subject. */
  lemma ProvisionWithSubjectOnly()
    ensures var d := ProvisionData(Claims("ext_2", None, None, None));
            d.email == "ext_2@clerk.user" && d.username == "ext_2" && d.fullName == None
  {
  }
}
