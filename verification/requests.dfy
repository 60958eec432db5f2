/**
 * How the pieces meet on the sequential paths a user's requests and Clerk's
 * webhook deliveries take through the plugin.
 */
module Requests {
  import opened Wrappers
  import opened Js
  import opened Http
  import opened ClerkUser
  import opened ClerkAuth
  import opened Ownership
  import Webhook
  import Config

  /**
   * Two requests carrying the same valid token for an identity the store
   * has not seen: the first provisions one user, the second finds it and
   * changes nothing.
   */
  lemma RepeatedRequestProvisionsOnce(st: Store, secretKey: Option<string>, header: Option<string>,
                                      verify: Verifier, prior1: Option<User>, prior2: Option<User>)
    requires Valid(st)
    requires VerifiedClaims(header, secretKey, verify).Some?
    ensures var first := Authenticate(st, secretKey, header, verify, false, prior1);
            var second := Authenticate(first.store, secretKey, header, verify, false, prior2);
            var sub := VerifiedClaims(header, secretKey, verify).value.sub;
            && second.store == first.store
            && second.stateUser == first.stateUser
            && CountClerkId(second.store.users, sub) == 1
            && |second.store.users| <= |st.users| + 1
  {
    AuthenticateKeepsValid(st, secretKey, header, verify, false, prior1);
  }

  /** A request that carries no verified token, and no principal set earlier, fails the ownership check as unauthenticated. */
  lemma UnverifiedRequestIsUnauthorized(st: Store, secretKey: Option<string>, header: Option<string>,
                                        verify: Verifier, storeFails: bool, requestedId: Option<string>)
    requires VerifiedClaims(header, secretKey, verify).None? || storeFails
    ensures IsUserOwner(Authenticate(st, secretKey, header, verify, storeFails, None).stateUser, requestedId)
            == Unauthorized(NotAuthenticated)
  {
  }

  /** A verified user reaches the record whose id is their own, and no other record. */
  lemma VerifiedUserReachesOwnRecord(st: Store, secretKey: Option<string>, header: Option<string>,
                                     verify: Verifier, prior: Option<User>, other: nat)
    requires VerifiedClaims(header, secretKey, verify).Some?
    ensures var u := Authenticate(st, secretKey, header, verify, false, prior).stateUser;
            && u.Some?
            && IsUserOwner(u, Some(DecimalString(u.value.id))) == Next
            && (other != u.value.id ==> IsUserOwner(u, Some(DecimalString(other))) == Forbidden(NotAuthorized))
  {
    var u := Authenticate(st, secretKey, header, verify, false, prior).stateUser;
    OwnIdPasses(u.value);
    if other != u.value.id {
      OtherIdForbidden(u.value, other);
    }
  }

  /** After a `user.created` or `user.updated` delivery, a request for that identity provisions nothing. */
  lemma WebhookThenRequest(st: Store, webhookSecret: Option<string>, ev: Webhook.Event, signatureValid: bool,
                           secretKey: Option<string>, header: Option<string>, verify: Verifier,
                           prior: Option<User>)
    requires Valid(st) && Webhook.IsUpsert(ev.eventType)
    requires !Truthy(webhookSecret) || signatureValid
    requires VerifiedClaims(header, secretKey, verify).Some?
    requires VerifiedClaims(header, secretKey, verify).value.sub == ev.data.id
    ensures var st1 := Webhook.Handle(st, webhookSecret, ev, signatureValid, false).store;
            var r := Authenticate(st1, secretKey, header, verify, false, prior);
            r.store == st1 && r.stateUser.Some? && HasClerkId(r.stateUser.value, ev.data.id)
  {
    var st1 := Webhook.Handle(st, webhookSecret, ev, signatureValid, false).store;
    Webhook.HandleReconciles(st, webhookSecret, ev, signatureValid);
    Webhook.HandleKeepsValid(st, webhookSecret, ev, signatureValid, false);
    CountAtMostOne(st1.users, st1.nextId, ev.data.id);
  }

  /**
   * After a request provisioned a user, a `user.created` delivery for the same
   * identity updates that user instead of adding a second one.
   */
  lemma RequestThenWebhook(st: Store, secretKey: Option<string>, header: Option<string>, verify: Verifier,
                           prior: Option<User>, webhookSecret: Option<string>, ev: Webhook.Event,
                           signatureValid: bool)
    requires Valid(st) && Webhook.IsUpsert(ev.eventType)
    requires !Truthy(webhookSecret) || signatureValid
    requires VerifiedClaims(header, secretKey, verify).Some?
    requires VerifiedClaims(header, secretKey, verify).value.sub == ev.data.id
    ensures var st1 := Authenticate(st, secretKey, header, verify, false, prior).store;
            var st2 := Webhook.Handle(st1, webhookSecret, ev, signatureValid, false).store;
            |st2.users| == |st1.users| && CountClerkId(st2.users, ev.data.id) == 1
  {
    var r := Authenticate(st, secretKey, header, verify, false, prior);
    AuthenticateKeepsValid(st, secretKey, header, verify, false, prior);
    var k := FirstWithClerkId(r.store.users, ev.data.id);
    Webhook.UpsertExisting(r.store, ev, k);
    Webhook.HandleReconciles(r.store, webhookSecret, ev, signatureValid);
  }

  /**
   * With the default configuration the webhook secret is empty, so the
   * signature verdict is ignored and no delivery is rejected as badly signed.
   */
  lemma DefaultConfigSkipsSignatureCheck(st: Store, ev: Webhook.Event, storeFails: bool)
    ensures Webhook.Handle(st, Config.Default.clerkWebhookSecret, ev, false, storeFails)
            == Webhook.Handle(st, Config.Default.clerkWebhookSecret, ev, true, storeFails)
    ensures Webhook.Handle(st, Config.Default.clerkWebhookSecret, ev, false, storeFails).outcome
            != BadRequest(Webhook.InvalidSignature)
  {
    Config.DefaultsRejected();
  }
}
