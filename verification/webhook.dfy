/**
 * The webhook controller: checks the delivery's signature when a webhook
 * secret is configured, then reconciles the user store with a Clerk
 * `user.created`, `user.updated` or `user.deleted` event and acknowledges it.
 */
module Webhook {
  import opened Wrappers
  import opened Js
  import opened Http
  import opened ClerkUser
  import ClerkAuth

  /** The `data` of a Clerk user event, as far as the handler reads it. */
  datatype EventData = EventData(
    id: string,
    username: Option<string>,
    firstName: Option<string>,
    lastName: Option<string>,
    emailAddresses: seq<Option<string>>)  // the `email_address` of each entry

  datatype Event = Event(eventType: string, data: EventData)

  /** The store after the delivery, and the response. */
  datatype Reply = Reply(store: Store, outcome: Outcome)

  const UserCreated := "user.created"
  const UserUpdated := "user.updated"
  const UserDeleted := "user.deleted"
  const InvalidSignature := "Invalid signature"

  predicate IsUpsert(t: string) {
    t == UserCreated || t == UserUpdated
  }

  /** The event types whose handling calls the store. */
  predicate IsUserEvent(t: string) {
    IsUpsert(t) || t == UserDeleted
  }

  /** `data.email_addresses?.[0]?.email_address` */
  function PrimaryEmail(d: EventData): Option<string> {
    if |d.emailAddresses| > 0 then d.emailAddresses[0] else None
  }

  /** `data.username || email || data.id` */
  function EventUsername(d: EventData): string {
    Or(d.username, Or(PrimaryEmail(d), d.id))
  }

  /** The fields written to an existing user: never `clerkId`, `role` or `confirmed`. */
  function MergePatch(d: EventData, existing: User): (p: Patch)
    ensures p.clerkId.None? && p.role.None? && p.confirmed.None?
  {
    Patch(None,
          Some(Or(PrimaryEmail(d), existing.email)),
          Some(EventUsername(d)),
          Some(OrElse(JoinNames(d.firstName, d.lastName), existing.fullName)),
          None,
          None)
  }

  /** The record created when no user holds the event's Clerk id. */
  function NewUserData(d: EventData): NewUser {
    NewUser(d.id, Or(PrimaryEmail(d), d.id + ClerkAuth.PlaceholderDomain), EventUsername(d),
            JoinNames(d.firstName, d.lastName))
  }

  /** The `switch` on the event type: the store after dispatch. */
  function Dispatch(st: Store, ev: Event): Store {
    if IsUpsert(ev.eventType) then
      match FindByClerkId(st, ev.data.id)
      case Some(existing) => UpdateFromClerk(st, existing.id, MergePatch(ev.data, existing)).store
      case None => CreateFromClerk(st, NewUserData(ev.data)).store
    else if ev.eventType == UserDeleted then
      DeleteByClerkId(st, ev.data.id).store
    else
      st
  }

  /**
   * `handle`. `signatureValid` is the verdict of the signature check and
   * `storeFails` stands for a rejected store call, which the handler does not
   * catch.
   */
  function Handle(st: Store, webhookSecret: Option<string>, ev: Event, signatureValid: bool,
                  storeFails: bool): (r: Reply)
    ensures Truthy(webhookSecret) && !signatureValid ==> r == Reply(st, BadRequest(InvalidSignature))
    ensures r.outcome == Received ==> !Truthy(webhookSecret) || signatureValid
    ensures r.outcome in {Received, BadRequest(InvalidSignature), ServerError}
    ensures r.outcome != Received ==> r.store == st
    ensures r.outcome == ServerError <==>
              (!Truthy(webhookSecret) || signatureValid) && storeFails && IsUserEvent(ev.eventType)
    ensures r.outcome == Received <==>
              (!Truthy(webhookSecret) || signatureValid) && !(storeFails && IsUserEvent(ev.eventType))
    ensures r.outcome == Received ==> r.store == Dispatch(st, ev)
    ensures !IsUserEvent(ev.eventType) ==> r.store == st
    ensures ev.eventType == UserDeleted && FindByClerkId(st, ev.data.id).None? ==> r.store == st
  {
    if Truthy(webhookSecret) && !signatureValid then
      Reply(st, BadRequest(InvalidSignature))
    else if storeFails && IsUserEvent(ev.eventType) then
      Reply(st, ServerError)
    else
      Reply(Dispatch(st, ev), Received)
  }

  /** Without a configured secret the signature verdict is never consulted. */
  lemma NoSecretSkipsVerification(st: Store, webhookSecret: Option<string>, ev: Event, storeFails: bool)
    requires !Truthy(webhookSecret)
    ensures Handle(st, webhookSecret, ev, false, storeFails) == Handle(st, webhookSecret, ev, true, storeFails)
  {
  }

  /** The merged user: the event's email and full name when truthy, else the existing ones. */
  function Merged(d: EventData, existing: User, roles: seq<Role>): (m: User)
    ensures m.id == existing.id && m.clerkId == existing.clerkId
    ensures m.role == existing.role && m.confirmed == existing.confirmed
    ensures m.email == (if Truthy(PrimaryEmail(d)) then PrimaryEmail(d).value else existing.email)
    ensures m.fullName == (if Truthy(JoinNames(d.firstName, d.lastName))
                           then JoinNames(d.firstName, d.lastName) else existing.fullName)
    ensures m.username == EventUsername(d)
  {
    Apply(existing, MergePatch(d, existing), roles)
  }

  /**
   * A created/updated event for a Clerk id the store holds rewrites that
   * user, at its place, with the merged fields, and no other user.
   */
  lemma UpsertExisting(st: Store, ev: Event, k: nat)
    requires Valid(st) && IsUpsert(ev.eventType)
    requires k < |st.users| && HasClerkId(st.users[k], ev.data.id)
    ensures Dispatch(st, ev) == st.(users := st.users[k := Merged(ev.data, st.users[k], st.roles)])
  {
    FindUnique(st, ev.data.id, k);
    var st' := Dispatch(st, ev);
    assert st'.users == st.users[k := Merged(ev.data, st.users[k], st.roles)];
  }

  /**
   * A created/updated event for an unknown Clerk id appends one confirmed user
   * whose email falls back to `<id>@clerk.user` and whose username follows
   * `username || email || id`.
   */
  lemma UpsertMissing(st: Store, ev: Event)
    requires IsUpsert(ev.eventType) && FindByClerkId(st, ev.data.id).None?
    ensures var u := CreateFromClerk(st, NewUserData(ev.data)).user;
            && Dispatch(st, ev).users == st.users + [u]
            && u.id == st.nextId && u.clerkId == Some(ev.data.id) && u.confirmed
            && u.email == Or(PrimaryEmail(ev.data), ev.data.id + ClerkAuth.PlaceholderDomain)
            && u.username == Or(ev.data.username, Or(PrimaryEmail(ev.data), ev.data.id))
            && u.fullName == JoinNames(ev.data.firstName, ev.data.lastName)
  {
  }

  /**
   * The merge never clears a populated email or full name, but it does not
   * keep the existing username: an event with neither username nor email
   * replaces it with the Clerk id.
   */
  lemma MergeKeepsPopulatedFields(d: EventData, existing: User, roles: seq<Role>)
    ensures existing.email != "" ==> Merged(d, existing, roles).email != ""
    ensures Truthy(existing.fullName) ==> Truthy(Merged(d, existing, roles).fullName)
    ensures !Truthy(d.username) && !Truthy(PrimaryEmail(d)) ==> Merged(d, existing, roles).username == d.id
  {
  }

  /** Users holding any other Clerk id, or none, come through a delivery untouched. */
  lemma HandleKeepsOtherUsers(st: Store, webhookSecret: Option<string>, ev: Event, signatureValid: bool,
                              storeFails: bool, i: nat)
    requires Valid(st)
    requires i < |st.users| && !HasClerkId(st.users[i], ev.data.id)
    ensures st.users[i] in Handle(st, webhookSecret, ev, signatureValid, storeFails).store.users
  {
    var r := Handle(st, webhookSecret, ev, signatureValid, storeFails);
    var k := FirstWithClerkId(st.users, ev.data.id);
    if r.outcome == Received && IsUserEvent(ev.eventType) && k < |st.users| {
      FindUnique(st, ev.data.id, k);
      assert st.users[i].id != st.users[k].id;
      if IsUpsert(ev.eventType) {
        assert r.store.users[i] == st.users[i];
      } else {
        WithoutIdMembers(st.users, st.users[k].id);
      }
    }
  }

  /** A delivery keeps the store invariant. */
  lemma HandleKeepsValid(st: Store, webhookSecret: Option<string>, ev: Event, signatureValid: bool,
                         storeFails: bool)
    requires Valid(st)
    ensures Valid(Handle(st, webhookSecret, ev, signatureValid, storeFails).store)
  {
    var d := ev.data;
    if IsUpsert(ev.eventType) {
      match FindByClerkId(st, d.id)
      case Some(existing) =>
        UpdatePreservesValid(st, existing.id, MergePatch(d, existing));
      case None =>
        CreatePreservesValid(st, NewUserData(d));
    } else if ev.eventType == UserDeleted {
      DeletePreservesValid(st, d.id);
    }
  }

  /**
   * After a processed created/updated event exactly one user holds the
   * event's Clerk id; after a processed delete, none does.
   */
  lemma HandleReconciles(st: Store, webhookSecret: Option<string>, ev: Event, signatureValid: bool)
    requires Valid(st)
    requires !Truthy(webhookSecret) || signatureValid
    ensures var st' := Handle(st, webhookSecret, ev, signatureValid, false).store;
            && (IsUpsert(ev.eventType) ==> CountClerkId(st'.users, ev.data.id) == 1)
            && (ev.eventType == UserDeleted ==> CountClerkId(st'.users, ev.data.id) == 0)
  {
    var d := ev.data;
    var st' := Handle(st, webhookSecret, ev, signatureValid, false).store;
    HandleKeepsValid(st, webhookSecret, ev, signatureValid, false);
    CountAtMostOne(st'.users, st'.nextId, d.id);
    if IsUpsert(ev.eventType) {
      var k := FirstWithClerkId(st.users, d.id);
      if k < |st.users| {
        UpsertExisting(st, ev, k);
        assert HasClerkId(st'.users[k], d.id);
      } else {
        assert HasClerkId(st'.users[|st.users|], d.id);
      }
    } else if ev.eventType == UserDeleted {
      DeletePreservesValid(st, d.id);
    }
  }

  /** Processing an upsert again writes back the values the first delivery stored. */
  lemma MergeIsStable(d: EventData, u: User, roles: seq<Role>)
    ensures Merged(d, Merged(d, u, roles), roles) == Merged(d, u, roles)
  {
  }

  /** Applying a created/updated event a second time writes back what the first one stored. */
  lemma UpsertIdempotent(st: Store, ev: Event)
    requires Valid(st) && IsUpsert(ev.eventType)
    ensures Dispatch(Dispatch(st, ev), ev) == Dispatch(st, ev)
  {
    var d := ev.data;
    var once := Dispatch(st, ev);
    var k := FirstWithClerkId(st.users, d.id);
    var k1: nat;
    if k < |st.users| {
      UpsertExisting(st, ev, k);
      UpdatePreservesValid(st, st.users[k].id, MergePatch(d, st.users[k]));
      k1 := k;
      MergeIsStable(d, st.users[k], st.roles);
    } else {
      CreatePreservesValid(st, NewUserData(d));
      k1 := |st.users|;
      assert once.users[k1] == CreateFromClerk(st, NewUserData(d)).user;
    }
    assert HasClerkId(once.users[k1], d.id);
    UpsertExisting(once, ev, k1);
    assert Merged(d, once.users[k1], once.roles) == once.users[k1];
    assert once.users[k1 := once.users[k1]] == once.users;
  }

  /**
   * At-least-once delivery is harmless: handling the same delivery twice
   * leaves the store as handling it once.
   */
  lemma HandleIdempotent(st: Store, webhookSecret: Option<string>, ev: Event, signatureValid: bool,
                         storeFails: bool)
    requires Valid(st)
    ensures var once := Handle(st, webhookSecret, ev, signatureValid, storeFails).store;
            Handle(once, webhookSecret, ev, signatureValid, storeFails).store == once
  {
    if (!Truthy(webhookSecret) || signatureValid) && !(storeFails && IsUserEvent(ev.eventType)) {
      if IsUpsert(ev.eventType) {
        UpsertIdempotent(st, ev);
      } else if ev.eventType == UserDeleted {
        DeletePreservesValid(st, ev.data.id);
      }
    }
  }
}
