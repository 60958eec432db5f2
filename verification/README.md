# clerk-auth identity sync and access control, modelled in Dafny

This project models the identity-sync and access-control layer of a Strapi
plugin that federates users from Clerk into the users-permissions user table:

- the **user-sync service** (`findByClerkId`, `createFromClerk`,
  `updateFromClerk`, `deleteByClerkId`) over a store of users and roles;
- the **clerk-auth middleware**, which reads a `Bearer` token, has it verified,
  and finds or provisions the local user for the token's subject;
- the **webhook controller**, which checks a delivery's signature when a
  webhook secret is configured and reconciles the store with Clerk's
  `user.created`, `user.updated` and `user.deleted` events;
- the **is-user-owner middleware**, a three-way decision (unauthorized, pass,
  forbidden) comparing ids as numbers;
- the **route patch** done at registration, which puts clerk-auth and
  is-user-owner on the users-permissions routes;
- the plugin **configuration**: its defaults and its validator.

Everything is a pure function over immutable datatypes; the only loop, the
route patch, is a method. Middleware and controller results are an explicit
`Http.Outcome` (`Next`, `Unauthorized`, `Forbidden`, `BadRequest`, `Received`,
`ServerError`).

Files: `wrappers.dfy` (Option), `js.dfy` (JavaScript truthiness, `||`,
`startsWith`/`slice`, `filter(Boolean).join(' ')`, `Number(string)` and the
decimal rendering it inverts), `http.dfy`, `clerk_user.dfy`, `clerk_auth.dfy`,
`webhook.dfy`, `is_user_owner.dfy`, `register.dfy`, `config.dfy`, and
`requests.dfy` (properties of requests and deliveries that go through several
components in sequence).

The store invariant `ClerkUser.Valid` says that user ids are distinct and below
the id sequence (an id is never handed out twice) and that a Clerk id belongs
to at most one user. The `clerkId` attribute is declared `unique` on the user
content type, but the service writes through the low-level query API, which
does not check that declaration; so the model's store does not reject a
duplicate, and the lemmas show instead that every caller keeps the invariant
(it looks up before it creates, and never writes `clerkId` in an update).

In these points the model follows the code, which behaves as follows:

- A store error during webhook dispatch is not caught: the delivery ends in a
  server error with no acknowledgement (`Webhook.Handle` answers
  `ServerError`), not in a logged error that is still acknowledged.
- A store error during request-time provisioning is caught like a
  verification failure: the request proceeds unauthenticated rather than
  failing.
- `updateFromClerk` accepts a `clerkId` field and so can change it
  (`ClerkUser.UpdateMayDuplicateClerkId`); only its callers keep it fixed.
- The webhook merge keeps the existing email and full name when the event
  lacks them, but not the existing username, which becomes
  `username || email || id` (`Webhook.MergeKeepsPopulatedFields`).
- `findByClerkId` returns the first match in store order, not the lowest id.

## Model

| member | source | states |
|---|---|---|
| ClerkUser.FindByClerkId | server/src/services/clerk-user.ts:33-42 | the result is null exactly when no user holds the Clerk id; otherwise it holds that id and is the first such user in store order |
| ClerkUser.FindUnique | server/src/services/clerk-user.ts:33-42 | under the store invariant the lookup returns the one user holding the Clerk id |
| ClerkUser.CountAtMostOne | server/src/register.ts:7-11 | under the store invariant at most one user holds any Clerk id, and none holds it exactly when the count is zero |
| ClerkUser.AuthenticatedRole | server/src/services/clerk-user.ts:52-54 | the role chosen is the first of type `authenticated`, and there is none exactly when no role has that type |
| ClerkUser.CreateFromClerk | server/src/services/clerk-user.ts:44-71 | the new user carries the given Clerk id, email, username and full name unchanged, is confirmed, gets the first `authenticated` role or none, gets an id no existing user has, and is appended with every other user kept |
| ClerkUser.CreatePreservesValid | server/src/services/clerk-user.ts:57-67 | creating for a Clerk id the store lacks keeps the invariant, and the lookup then returns the created user |
| ClerkUser.UpdateFromClerk | server/src/services/clerk-user.ts:73-82 | only the user with the given id changes, and only in the fields the patch supplies; other users and fields are unchanged; the result is null exactly when no user has the id |
| ClerkUser.UpdatePreservesValid | server/src/services/clerk-user.ts:73-82 | an update that does not write `clerkId` keeps the invariant and every user's id and Clerk id |
| ClerkUser.UpdateMayDuplicateClerkId | server/src/services/clerk-user.ts:18-25 | the update itself does not forbid writing `clerkId`: a patch can give two users the same Clerk id |
| ClerkUser.UpdateUnchanged | server/src/services/clerk-user.ts:73-82 | an update that writes the values a user already has leaves the store as it was |
| ClerkUser.Apply | server/src/services/clerk-user.ts:73-82 | an update never changes the user's id, and an update that supplies no field leaves the user as it was |
| ClerkUser.ApplyIdempotent | server/src/services/clerk-user.ts:73-82 | writing the same update twice gives the user of writing it once |
| ClerkUser.ApplyCommutes | server/src/services/clerk-user.ts:73-82 | two updates that supply disjoint fields give the same user in either order |
| ClerkUser.DeleteByClerkId | server/src/services/clerk-user.ts:84-95 | reports true exactly when some user holds the Clerk id; on false the store is unchanged; on true the store shrinks, gains nothing and keeps every user whose id differs from the one `findByClerkId` returns |
| ClerkUser.DeleteRemovesFound | server/src/services/clerk-user.ts:84-95 | under the invariant the delete removes exactly the found record and keeps the others in order |
| ClerkUser.DeletePreservesValid | server/src/services/clerk-user.ts:84-95 | deleting keeps the invariant, and afterwards no user holds the Clerk id |
| Js.JoinNames | server/src/middlewares/clerk-auth.ts:42-44 | the full name is both names joined by one space, or the one truthy name, or null when neither is truthy; never the empty string |
| Js.ToNumberOfDigits | server/src/middlewares/is-user-owner.ts:18 | a string that trims to decimal digits converts to their value |
| Js.ToNumberDecimalString | server/src/middlewares/is-user-owner.ts:18 | converting the decimal rendering of a natural number gives that number back |
| Js.ToNumberDecimalStringInjective | server/src/middlewares/is-user-owner.ts:18 | the decimal rendering of m converts to a number equal to n exactly when m = n |
| ClerkAuth.BearerToken | server/src/middlewares/clerk-auth.ts:8-15 | a token exists exactly when the header is present and starts with `Bearer `, and the header is then `Bearer ` followed by the token |
| ClerkAuth.BearerRoundTrip | server/src/middlewares/clerk-auth.ts:15 | the header `Bearer ` + t yields the token t |
| ClerkAuth.ProvisionData | server/src/middlewares/clerk-auth.ts:42-53 | a provisioned record takes the subject as Clerk id, the email claim (or `<sub>@clerk.user`) as email, the email claim (or the subject) as username, and the joined names as full name; its email is never empty |
| ClerkAuth.Authenticate | server/src/middlewares/clerk-auth.ts:5-66 | the middleware always calls next; with no bearer token, a failed verification or a failed store call the store and `state.user` are untouched; with a verified subject it sets the existing user and creates nothing, or appends one confirmed user built by the fallback rules |
| ClerkAuth.AuthenticateKeepsValid | server/src/middlewares/clerk-auth.ts:38-59 | a request keeps the invariant; after a verified request exactly one user holds the subject's Clerk id and it is the request's principal |
| ClerkAuth.ProvisionWithAllClaims | server/src/middlewares/clerk-auth.ts:42-53 | claims with email `a@b.com` and names A, B give email and username `a@b.com` and full name `A B` |
| ClerkAuth.ProvisionWithSubjectOnly | server/src/middlewares/clerk-auth.ts:42-53 | claims with only subject `ext_2` give email `ext_2@clerk.user`, username `ext_2` and no full name |
| Webhook.Handle | server/src/controllers/webhook.ts:5-72 | with a secret configured and a bad signature the reply is `Invalid signature` and the store is unchanged; a delivery is acknowledged exactly when the signature check passed or was skipped and no store call failed, and the acknowledged store is the dispatched one, so unrecognised event types and deletes of unknown ids are acknowledged without a change; a store failure on a user event is a server error with the store unchanged |
| Webhook.NoSecretSkipsVerification | server/src/controllers/webhook.ts:14-26 | with no secret configured the signature verdict does not affect the result |
| Webhook.MergePatch | server/src/controllers/webhook.ts:44-48 | the update sent for an existing user never writes `clerkId`, `role` or `confirmed` |
| Webhook.Merged | server/src/controllers/webhook.ts:37-48 | the merged user keeps id, Clerk id, role and confirmation; takes the event email and full name when truthy and the existing ones otherwise; takes `username \|\| email \|\| id` as username |
| Webhook.UpsertExisting | server/src/controllers/webhook.ts:41-49 | a created/updated event for a held Clerk id replaces that user, in place, by the merged user and changes no other |
| Webhook.UpsertMissing | server/src/controllers/webhook.ts:50-57 | a created/updated event for an unknown Clerk id appends one confirmed user with email falling back to `<id>@clerk.user` and the `username \|\| email \|\| id` username |
| Webhook.MergeKeepsPopulatedFields | server/src/controllers/webhook.ts:44-48 | a non-empty email or truthy full name is never cleared by the merge, while an event without username and email sets the username to the Clerk id |
| Webhook.HandleKeepsOtherUsers | server/src/controllers/webhook.ts:34-69 | under the invariant every user not holding the event's Clerk id is still in the store after the delivery |
| Webhook.HandleKeepsValid | server/src/controllers/webhook.ts:34-69 | every delivery keeps the store invariant |
| Webhook.HandleReconciles | server/src/controllers/webhook.ts:34-69 | after a processed created/updated event exactly one user holds the Clerk id; after a processed delete none does |
| Webhook.MergeIsStable | server/src/controllers/webhook.ts:44-48 | merging the same event into an already merged user changes nothing |
| Webhook.UpsertIdempotent | server/src/controllers/webhook.ts:41-58 | under the invariant, dispatching the same created/updated event twice gives the store of dispatching it once |
| Webhook.HandleIdempotent | server/src/controllers/webhook.ts:34-71 | handling the same delivery twice leaves the store exactly as handling it once |
| Ownership.IsUserOwner | server/src/middlewares/is-user-owner.ts:4-26 | no user is unauthorized before any id is compared; a missing or empty id passes; otherwise the request is forbidden exactly when the two ids differ as numbers, and passes otherwise |
| Ownership.OwnIdPasses | server/src/middlewares/is-user-owner.ts:16-25 | a user asking for their own id in decimal passes |
| Ownership.OtherIdForbidden | server/src/middlewares/is-user-owner.ts:16-23 | a user asking for any other id in decimal is forbidden |
| Ownership.LeadingZeroPasses | server/src/middlewares/is-user-owner.ts:18 | user 5 asking for `05` passes, as the comparison is numeric |
| Ownership.PaddedIdPasses | server/src/middlewares/is-user-owner.ts:18 | user 5 asking for ` 5 ` passes |
| Ownership.FractionalSpellingPasses | server/src/middlewares/is-user-owner.ts:18 | user 5 asking for `5.0` passes |
| Ownership.WordIdForbidden | server/src/middlewares/is-user-owner.ts:18-22 | a non-numeric id such as `me` is NaN and is forbidden |
| Register.InitializeRoute | server/src/register.ts:28-32 | the route gets a config, a middleware list and a policy list where missing, and keeps existing ones and its auth setting |
| Register.PatchRoute | server/src/register.ts:34-53 | a route in neither target list is unchanged; an auth target gets host auth off and clerk-auth in front unless present; an owner target gets is-user-owner at the end unless present; policies and other fields are kept |
| Register.PatchRoutes | server/src/register.ts:34-53 | the loop patches every route, each on its own |
| Register.OwnerTargetsAreAuthTargets | server/src/register.ts:25-26 | every owner target is an auth target |
| Register.PatchRouteIdempotent | server/src/register.ts:42-51 | patching a patched route changes nothing |
| Register.PatchedIdempotent | server/src/register.ts:34-53 | running the whole patch twice gives the routes of running it once |
| Register.PatchKeepsNoDuplicates | server/src/register.ts:42-51 | a middleware list without duplicates stays without duplicates |
| Register.AuthBeforeOwner | server/src/register.ts:43-50 | on an owner route lacking clerk-auth, clerk-auth is first and is-user-owner after it; a route with no middlewares gets exactly those two in that order |
| Register.ListAndMeRoutesAreNotOwned | server/src/register.ts:25-26 | `user.find` and `user.me` get clerk-auth but no is-user-owner |
| Config.Validate | server/src/config/index.ts:7-11 | the validator accepts exactly the configs whose secret key is present and non-empty |
| Config.ValidateIgnoresOtherFields | server/src/config/index.ts:7-11 | the webhook secret and profile content type do not affect validation |
| Config.DefaultsRejected | server/src/config/index.ts:2-10 | the defaults fail validation and have an empty webhook secret |
| Requests.RepeatedRequestProvisionsOnce | server/src/middlewares/clerk-auth.ts:38-59 | two requests with the same valid token create at most one user: the second changes nothing and resolves the same principal |
| Requests.UnverifiedRequestIsUnauthorized | server/src/middlewares/is-user-owner.ts:5-7 | a request without a verified token and without a prior principal is unauthorized at the ownership check |
| Requests.VerifiedUserReachesOwnRecord | server/src/middlewares/is-user-owner.ts:16-25 | a verified user passes the ownership check for their own id and is forbidden any other |
| Requests.WebhookThenRequest | server/src/middlewares/clerk-auth.ts:38-56 | after a created/updated delivery a request for that identity finds the user and creates nothing |
| Requests.RequestThenWebhook | server/src/controllers/webhook.ts:41-49 | after a request provisioned a user, a created delivery for it updates rather than adds a user |
| Requests.DefaultConfigSkipsSignatureCheck | server/src/config/index.ts:4 | with the default empty webhook secret the signature verdict is ignored and no delivery is rejected as badly signed |

## Left out

- Token verification (`verifyToken` from the Clerk SDK) is foreign cryptography: it is an oracle `ClerkAuth.Verifier` from token and secret key to optional claims.
- Webhook signature verification (Svix HMAC over the re-serialised body and the `svix-*` headers) is foreign cryptography: it is the boolean `signatureValid`.
- Store failures are a single boolean `storeFails`; which store call fails is not distinguished, and a failing call is taken to write nothing.
- The Strapi query engine: the user table is a sequence in query order; `populate: ['role']` is modelled by keeping the role inside the user record; a role id written by an update resolves against the role table or to none.
- Clerk ids are compared by exact string equality; a case-insensitive database collation is not modelled.
- Timestamps, and users-permissions fields the core never reads (provider, password, blocked), are not modelled.
- Js.ToNumber: double-precision rounding is not modelled (values are exact reals, so very large ids and exponents do not round or overflow to Infinity), and the Unicode space separators other than U+00A0 are not treated as white space.
- `ctx`, headers, params and `next` are explicit inputs and outputs; what `next()` does downstream is not modelled.
- The webhook event's `data.id` is taken to be a string; other shapes of `data` (non-string fields, a first email entry with extra fields) are not modelled.
- Route middlewares are names only; Strapi also accepts middleware objects and functions.
- Logging of every kind.
- Concurrency: requests and deliveries are modelled one after another; the code takes no locks, so races between request-time provisioning and webhooks are outside the model.
- server/src/bootstrap.ts is not part of this model: `generateUsername` uses `Math.random`, the profile hooks are host lifecycle plumbing over a separate content type, and the `clerkId` presence check only logs.
- server/src/routes/content-api/index.ts and server/src/middlewares/index.ts are static declaration tables with no behaviour.
- The host's merging of the defaults with the user's configuration before the validator runs is host wiring and is not modelled.
