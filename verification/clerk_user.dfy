/**
 * The user-sync service: lookup, creation, partial update and deletion of
 * users-permissions users keyed by their Clerk id, over an abstract store.
 */
module ClerkUser {
  import opened Wrappers

  /** A users-permissions role; `roleType` is its `type` column (`authenticated`, `public`, ...). */
  datatype Role = Role(id: nat, roleType: string)

  /** A stored user with its role populated. Users not created through Clerk have no `clerkId`. */
  datatype User = User(
    id: nat,
    clerkId: Option<string>,
    email: string,
    username: string,
    fullName: Option<string>,
    confirmed: bool,
    role: Option<Role>)

  /** The user and role tables; `nextId` is the next value of the user id sequence. */
  datatype Store = Store(users: seq<User>, roles: seq<Role>, nextId: nat)

  /** What `createFromClerk` receives. */
  datatype NewUser = NewUser(clerkId: string, email: string, username: string, fullName: Option<string>)

  /**
   * `Partial<ClerkUserInput>`: each field present or absent; a present
   * `fullName` may be `null`, and a present `role` is a role id.
   */
  datatype Patch = Patch(
    clerkId: Option<string>,
    email: Option<string>,
    username: Option<string>,
    fullName: Option<Option<string>>,
    role: Option<nat>,
    confirmed: Option<bool>)

  datatype Created = Created(store: Store, user: User)
  datatype Updated = Updated(store: Store, user: Option<User>)
  datatype Deleted = Deleted(store: Store, deleted: bool)

  const AuthenticatedType := "authenticated"

  predicate HasClerkId(u: User, c: string) {
    u.clerkId == Some(c)
  }

  /**
   * The store invariant: user ids are distinct and below the id sequence (so
   * an id is never handed out twice), and a Clerk id, declared unique on the
   * user content type, belongs to at most one user.
   */
  predicate Valid(st: Store) {
    && (forall i :: 0 <= i < |st.users| ==> st.users[i].id < st.nextId)
    && (forall i, j :: 0 <= i < j < |st.users| ==> st.users[i].id != st.users[j].id)
    && (forall i, j :: 0 <= i < j < |st.users| && st.users[i].clerkId.Some? ==>
          st.users[i].clerkId != st.users[j].clerkId)
  }

  /** How many users carry Clerk id `c`. */
  function CountClerkId(users: seq<User>, c: string): nat
    decreases |users|
  {
    if users == [] then 0
    else (if HasClerkId(users[0], c) then 1 else 0) + CountClerkId(users[1..], c)
  }

  /** The index of the first user with Clerk id `c`, or `|users|`. */
  function FirstWithClerkId(users: seq<User>, c: string): (k: nat)
    ensures k <= |users|
    ensures k < |users| ==> HasClerkId(users[k], c)
    ensures forall j :: 0 <= j < k ==> !HasClerkId(users[j], c)
    decreases |users|
  {
    if users == [] then 0
    else if HasClerkId(users[0], c) then 0
    else 1 + FirstWithClerkId(users[1..], c)
  }

  /** The index of the first user with id `id`, or `|users|`. */
  function FirstWithId(users: seq<User>, id: nat): (k: nat)
    ensures k <= |users|
    ensures k < |users| ==> users[k].id == id
    ensures forall j :: 0 <= j < k ==> users[j].id != id
    decreases |users|
  {
    if users == [] then 0
    else if users[0].id == id then 0
    else 1 + FirstWithId(users[1..], id)
  }

  /**
   * `findByClerkId`: the first user whose Clerk id is `c`, or `null` when
   * there is none.
   */
  function FindByClerkId(st: Store, c: string): (r: Option<User>)
    ensures r.None? <==> forall i :: 0 <= i < |st.users| ==> !HasClerkId(st.users[i], c)
    ensures r.Some? ==> HasClerkId(r.value, c)
    ensures r.Some? ==> exists k :: 0 <= k < |st.users| && st.users[k] == r.value &&
                          forall j :: 0 <= j < k ==> !HasClerkId(st.users[j], c)
  {
    var k := FirstWithClerkId(st.users, c);
    if k < |st.users| then Some(st.users[k]) else None
  }

  /** The first role of type `authenticated` (`roles[0]?.id` of the filtered query), if any. */
  function AuthenticatedRole(roles: seq<Role>): (r: Option<Role>)
    ensures r.None? <==> forall i :: 0 <= i < |roles| ==> roles[i].roleType != AuthenticatedType
    ensures r.Some? ==> r.value.roleType == AuthenticatedType
    ensures r.Some? ==> exists k :: 0 <= k < |roles| && roles[k] == r.value &&
                          forall j :: 0 <= j < k ==> roles[j].roleType != AuthenticatedType
    decreases |roles|
  {
    if roles == [] then None
    else if roles[0].roleType == AuthenticatedType then Some(roles[0])
    else
      var r := AuthenticatedRole(roles[1..]);
      assert r.Some? ==> exists k :: 0 <= k < |roles[1..]| && roles[1..][k] == r.value &&
                          forall j :: 0 <= j < k ==> roles[1..][j].roleType != AuthenticatedType;
      r
  }

  /** The role a role id refers to, populated from the role table. */
  function RoleById(roles: seq<Role>, id: nat): (r: Option<Role>)
    ensures r.None? <==> forall i :: 0 <= i < |roles| ==> roles[i].id != id
    ensures r.Some? ==> r.value in roles && r.value.id == id
    decreases |roles|
  {
    if roles == [] then None
    else if roles[0].id == id then Some(roles[0])
    else RoleById(roles[1..], id)
  }

  /**
   * `createFromClerk`: a new confirmed user carrying exactly the given fields,
   * a fresh id, and the first `authenticated` role, left unset when there is
   * no such role.
   */
  function CreateFromClerk(st: Store, data: NewUser): (r: Created)
    ensures r.user.clerkId == Some(data.clerkId)
    ensures r.user.email == data.email && r.user.username == data.username
    ensures r.user.fullName == data.fullName
    ensures r.user.confirmed
    ensures r.user.role == AuthenticatedRole(st.roles)
    ensures Valid(st) ==> forall i :: 0 <= i < |st.users| ==> st.users[i].id != r.user.id
    ensures r.store.users == st.users + [r.user] && r.store.roles == st.roles
    ensures r.user.id < r.store.nextId && st.nextId < r.store.nextId
  {
    var user := User(st.nextId, Some(data.clerkId), data.email, data.username, data.fullName, true,
                     AuthenticatedRole(st.roles));
    Created(Store(st.users + [user], st.roles, st.nextId + 1), user)
  }

  /** The patch that supplies no field. */
  const NoChange := Patch(None, None, None, None, None, None)

  /**
   * The user `u` after writing the fields present in `p`; the id is never
   * written, and a patch that supplies nothing leaves the user as it was.
   */
  function Apply(u: User, p: Patch, roles: seq<Role>): (v: User)
    ensures v.id == u.id
    ensures p == NoChange ==> v == u
  {
    User(
      u.id,
      if p.clerkId.Some? then p.clerkId else u.clerkId,
      p.email.GetOr(u.email),
      p.username.GetOr(u.username),
      p.fullName.GetOr(u.fullName),
      p.confirmed.GetOr(u.confirmed),
      if p.role.Some? then RoleById(roles, p.role.value) else u.role)
  }

  /** Writing the same patch a second time changes nothing. */
  lemma ApplyIdempotent(u: User, p: Patch, roles: seq<Role>)
    ensures Apply(Apply(u, p, roles), p, roles) == Apply(u, p, roles)
  {
  }

  /** Two patches supplying disjoint fields can be written in either order. */
  lemma ApplyCommutes(u: User, p: Patch, q: Patch, roles: seq<Role>)
    requires p.clerkId.None? || q.clerkId.None?
    requires p.email.None? || q.email.None?
    requires p.username.None? || q.username.None?
    requires p.fullName.None? || q.fullName.None?
    requires p.role.None? || q.role.None?
    requires p.confirmed.None? || q.confirmed.None?
    ensures Apply(Apply(u, p, roles), q, roles) == Apply(Apply(u, q, roles), p, roles)
  {
  }

  /**
   * `updateFromClerk`: writes the present fields of `p` to the user with id
   * `id` and nothing else; the result is the updated user, or `null` when no
   * user has that id.
   */
  function UpdateFromClerk(st: Store, id: nat, p: Patch): (r: Updated)
    ensures |r.store.users| == |st.users| && r.store.roles == st.roles && r.store.nextId == st.nextId
    ensures forall i :: 0 <= i < |st.users| && st.users[i].id != id ==> r.store.users[i] == st.users[i]
    ensures forall i :: 0 <= i < |st.users| && st.users[i].id == id ==>
              r.store.users[i] == Apply(st.users[i], p, st.roles)
    ensures r.user.None? <==> forall i :: 0 <= i < |st.users| ==> st.users[i].id != id
    ensures r.user.Some? ==> r.user.value in r.store.users && r.user.value.id == id
  {
    var users := seq(|st.users|, i requires 0 <= i < |st.users| =>
                       if st.users[i].id == id then Apply(st.users[i], p, st.roles) else st.users[i]);
    var k := FirstWithId(users, id);
    Updated(Store(users, st.roles, st.nextId), if k < |users| then Some(users[k]) else None)
  }

  /** The users whose id is not `id`, in order (a delete `where: { id }`). */
  function WithoutId(users: seq<User>, id: nat): (r: seq<User>)
    ensures |r| <= |users|
    decreases |users|
  {
    if users == [] then []
    else if users[0].id == id then WithoutId(users[1..], id)
    else [users[0]] + WithoutId(users[1..], id)
  }

  lemma {:induction false} WithoutIdMembers(users: seq<User>, id: nat)
    ensures forall u :: u in WithoutId(users, id) <==> u in users && u.id != id
    decreases |users|
  {
    if users != [] {
      WithoutIdMembers(users[1..], id);
      assert users == [users[0]] + users[1..];
    }
  }

  lemma {:induction false} WithoutIdShrinks(users: seq<User>, id: nat, k: nat)
    requires k < |users| && users[k].id == id
    ensures |WithoutId(users, id)| < |users|
    decreases |users|
  {
    if k > 0 {
      WithoutIdShrinks(users[1..], id, k - 1);
    }
  }

  /**
   * `deleteByClerkId`: reports whether a user with Clerk id `c` existed; if
   * so the store loses that user's record, otherwise it is unchanged.
   */
  function DeleteByClerkId(st: Store, c: string): (r: Deleted)
    ensures r.deleted <==> exists i :: 0 <= i < |st.users| && HasClerkId(st.users[i], c)
    ensures !r.deleted ==> r.store == st
    ensures r.store.roles == st.roles && r.store.nextId == st.nextId
    ensures forall u :: u in r.store.users ==> u in st.users
    ensures r.deleted ==> |r.store.users| < |st.users|
    ensures r.deleted ==> FindByClerkId(st, c).Some?
    ensures r.deleted ==>
              forall u :: u in st.users && u.id != FindByClerkId(st, c).value.id ==> u in r.store.users
  {
    // the index of the user `findByClerkId` returns
    var k := FirstWithClerkId(st.users, c);
    if k == |st.users| then Deleted(st, false)
    else
      var user := st.users[k];
      WithoutIdMembers(st.users, user.id);
      WithoutIdShrinks(st.users, user.id, k);
      Deleted(st.(users := WithoutId(st.users, user.id)), true)
  }

  /** `users` without the entry at index `k`. */
  function RemoveAt(users: seq<User>, k: nat): (r: seq<User>)
    requires k < |users|
    ensures |r| == |users| - 1
    ensures forall i :: 0 <= i < |r| ==> r[i] == users[if i < k then i else i + 1]
  {
    users[..k] + users[k + 1..]
  }

  // ---------- lemmas ----------

  /** Under the invariant, the lookup finds the one user holding the Clerk id. */
  lemma FindUnique(st: Store, c: string, k: nat)
    requires Valid(st)
    requires k < |st.users| && HasClerkId(st.users[k], c)
    ensures FindByClerkId(st, c) == Some(st.users[k])
  {
  }

  /** Under the invariant, a Clerk id is held by at most one user. */
  lemma {:induction false} CountAtMostOne(users: seq<User>, nextId: nat, c: string)
    requires Valid(Store(users, [], nextId))
    ensures CountClerkId(users, c) <= 1
    ensures CountClerkId(users, c) == 0 <==> forall i :: 0 <= i < |users| ==> !HasClerkId(users[i], c)
    decreases |users|
  {
    if users != [] {
      var rest := users[1..];
      assert Valid(Store(rest, [], nextId)) by {
        forall i, j | 0 <= i < j < |rest| && rest[i].clerkId.Some?
          ensures rest[i].clerkId != rest[j].clerkId
        {
          assert rest[i] == users[i + 1] && rest[j] == users[j + 1];
        }
      }
      CountAtMostOne(rest, nextId, c);
      if HasClerkId(users[0], c) {
        forall i | 0 <= i < |rest| ensures !HasClerkId(rest[i], c) {
          assert rest[i] == users[i + 1];
        }
      }
      assert forall i :: 0 < i < |users| ==> users[i] == rest[i - 1];
    }
  }

  /**
   * Creating a user for a Clerk id that the store does not hold keeps the
   * invariant, and the lookup then returns the new user.
   */
  lemma CreatePreservesValid(st: Store, data: NewUser)
    requires Valid(st)
    requires FindByClerkId(st, data.clerkId).None?
    ensures Valid(CreateFromClerk(st, data).store)
    ensures FindByClerkId(CreateFromClerk(st, data).store, data.clerkId) == Some(CreateFromClerk(st, data).user)
  {
    var r := CreateFromClerk(st, data);
    assert r.store.users[|st.users|] == r.user;
    FindUnique(r.store, data.clerkId, |st.users|);
  }

  /** An update that does not write `clerkId` keeps the invariant and every user's Clerk id. */
  lemma UpdatePreservesValid(st: Store, id: nat, p: Patch)
    requires Valid(st)
    requires p.clerkId.None?
    ensures Valid(UpdateFromClerk(st, id, p).store)
    ensures forall i :: 0 <= i < |st.users| ==>
              UpdateFromClerk(st, id, p).store.users[i].clerkId == st.users[i].clerkId &&
              UpdateFromClerk(st, id, p).store.users[i].id == st.users[i].id
  {
  }

  /**
   * `updateFromClerk` itself does not protect the invariant: a patch that
   * writes another user's Clerk id leaves two users holding it.
   */
  lemma UpdateMayDuplicateClerkId()
    ensures var st := Store([User(1, Some("a"), "", "", None, true, None),
                             User(2, Some("b"), "", "", None, true, None)], [], 3);
            Valid(st) && !Valid(UpdateFromClerk(st, 2, Patch(Some("a"), None, None, None, None, None)).store)
  {
    var st := Store([User(1, Some("a"), "", "", None, true, None),
                     User(2, Some("b"), "", "", None, true, None)], [], 3);
    var r := UpdateFromClerk(st, 2, Patch(Some("a"), None, None, None, None, None));
    assert r.store.users[0].clerkId == Some("a") && r.store.users[1].clerkId == Some("a");
  }

  /** An update whose every field already holds the written value leaves the store as it was. */
  lemma UpdateUnchanged(st: Store, k: nat, p: Patch)
    requires Valid(st) && k < |st.users|
    requires Apply(st.users[k], p, st.roles) == st.users[k]
    ensures UpdateFromClerk(st, st.users[k].id, p).store == st
  {
    var r := UpdateFromClerk(st, st.users[k].id, p);
    assert r.store.users == st.users;
  }

  lemma {:induction false} WithoutAbsentId(users: seq<User>, id: nat)
    requires forall j :: 0 <= j < |users| ==> users[j].id != id
    ensures WithoutId(users, id) == users
    decreases |users|
  {
    if users != [] {
      WithoutAbsentId(users[1..], id);
    }
  }

  lemma WithoutLeadingId(users: seq<User>, id: nat)
    requires users != [] && users[0].id == id
    requires forall j :: 1 <= j < |users| ==> users[j].id != id
    ensures WithoutId(users, id) == users[1..]
  {
    var rest := users[1..];
    assert forall j :: 0 <= j < |rest| ==> rest[j].id != id by {
      forall j | 0 <= j < |rest| ensures rest[j].id != id {
        assert rest[j] == users[j + 1];
      }
    }
    WithoutAbsentId(rest, id);
  }

  lemma {:induction false} WithoutSingleId(users: seq<User>, id: nat, k: nat)
    requires k < |users| && users[k].id == id
    requires forall j :: 0 <= j < |users| && j != k ==> users[j].id != id
    ensures WithoutId(users, id) == RemoveAt(users, k)
    decreases |users|
  {
    if k == 0 {
      WithoutLeadingId(users, id);
    } else {
      var rest := users[1..];
      assert forall j :: 0 <= j < |rest| && j != k - 1 ==> rest[j].id != id by {
        forall j | 0 <= j < |rest| && j != k - 1 ensures rest[j].id != id {
          assert rest[j] == users[j + 1];
        }
      }
      WithoutSingleId(rest, id, k - 1);
      assert users[0].id != id;
      assert WithoutId(users, id) == [users[0]] + RemoveAt(rest, k - 1);
    }
  }

  /**
   * Under the invariant, deleting by Clerk id removes exactly the record the
   * lookup found and keeps the order of the others.
   */
  lemma DeleteRemovesFound(st: Store, c: string, k: nat)
    requires Valid(st)
    requires k < |st.users| && HasClerkId(st.users[k], c)
    ensures DeleteByClerkId(st, c).deleted
    ensures DeleteByClerkId(st, c).store.users == RemoveAt(st.users, k)
  {
    FindUnique(st, c, k);
    WithoutSingleId(st.users, st.users[k].id, k);
  }

  /** Removing one user keeps the invariant. */
  lemma RemoveAtKeepsValid(st: Store, k: nat)
    requires Valid(st) && k < |st.users|
    ensures Valid(st.(users := RemoveAt(st.users, k)))
  {
    var rest := RemoveAt(st.users, k);
    forall i, j | 0 <= i < j < |rest|
      ensures rest[i].id != rest[j].id
      ensures rest[i].clerkId.Some? ==> rest[i].clerkId != rest[j].clerkId
    {
      var i' := if i < k then i else i + 1;
      var j' := if j < k then j else j + 1;
      assert rest[i] == st.users[i'] && rest[j] == st.users[j'] && i' < j';
    }
  }

  /** Deleting keeps the invariant, and afterwards no user holds the Clerk id. */
  lemma DeletePreservesValid(st: Store, c: string)
    requires Valid(st)
    ensures Valid(DeleteByClerkId(st, c).store)
    ensures FindByClerkId(DeleteByClerkId(st, c).store, c).None?
  {
    var k := FirstWithClerkId(st.users, c);
    if k < |st.users| {
      DeleteRemovesFound(st, c, k);
      RemoveAtKeepsValid(st, k);
      var rest := RemoveAt(st.users, k);
      forall i | 0 <= i < |rest| ensures !HasClerkId(rest[i], c) {
        var i' := if i < k then i else i + 1;
        assert rest[i] == st.users[i'] && i' != k;
      }
    }
  }
}
