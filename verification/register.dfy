/**
 * The route patch applied at registration: the users-permissions user routes
 * get the clerk-auth middleware in front (with the host's own authentication
 * switched off), and the routes that act on one user get is-user-owner at the
 * end, each at most once.
 */
module Register {
  import opened Wrappers

  /** A route's `config.auth`: absent, `false`, or a scope object. */
  datatype AuthSetting = AuthUnset | AuthOff | AuthScoped(scope: seq<string>)

  datatype RouteConfig = RouteConfig(
    auth: AuthSetting,
    middlewares: Option<seq<string>>,
    policies: Option<seq<string>>)

  /** A route: its HTTP verb, path, handler name and optional config. */
  datatype Route = Route(verb: string, path: string, handler: string, config: Option<RouteConfig>)

  const ClerkAuthMiddleware := "plugin::clerk-auth.clerk-auth"
  const IsUserOwnerMiddleware := "plugin::clerk-auth.is-user-owner"

  const ClerkAuthTargets: seq<string> := ["user.find", "user.findOne", "user.update", "user.destroy", "user.me"]
  const OwnerTargets: seq<string> := ["user.findOne", "user.update", "user.destroy"]

  /** The route's middleware list, an absent config or list counting as empty. */
  function MiddlewaresOf(r: Route): seq<string> {
    if r.config.Some? && r.config.value.middlewares.Some? then r.config.value.middlewares.value else []
  }

  function PoliciesOf(r: Route): seq<string> {
    if r.config.Some? && r.config.value.policies.Some? then r.config.value.policies.value else []
  }

  predicate Initialized(r: Route) {
    r.config.Some? && r.config.value.middlewares.Some? && r.config.value.policies.Some?
  }

  /**
   * `initializeRoute`: gives the route a config, a middleware list and a
   * policy list where they are missing, and keeps whatever was there.
   */
  function InitializeRoute(r: Route): (r': Route)
    ensures Initialized(r')
    ensures r'.verb == r.verb && r'.path == r.path && r'.handler == r.handler
    ensures MiddlewaresOf(r') == MiddlewaresOf(r) && PoliciesOf(r') == PoliciesOf(r)
    ensures r.config.Some? ==> r'.config.value.auth == r.config.value.auth
    ensures r.config.None? ==> r'.config.value.auth == AuthUnset
    ensures Initialized(r) ==> r' == r
  {
    var c := if r.config.Some? then r.config.value else RouteConfig(AuthUnset, None, None);
    var c' := c.(middlewares := Some(if c.middlewares.Some? then c.middlewares.value else []),
                 policies := Some(if c.policies.Some? then c.policies.value else []));
    r.(config := Some(c'))
  }

  function SetMiddlewares(r: Route, m: seq<string>): Route
    requires Initialized(r)
  {
    r.(config := Some(r.config.value.(middlewares := Some(m))))
  }

  /** Switch off the host's authentication and put clerk-auth in front, unless it is there. */
  function AddClerkAuth(r: Route): Route
    requires Initialized(r)
  {
    var m := r.config.value.middlewares.value;
    var r1 := r.(config := Some(r.config.value.(auth := AuthOff)));
    SetMiddlewares(r1, if ClerkAuthMiddleware in m then m else [ClerkAuthMiddleware] + m)
  }

  /** Append is-user-owner, unless it is there. */
  function AddIsUserOwner(r: Route): Route
    requires Initialized(r)
  {
    var m := r.config.value.middlewares.value;
    SetMiddlewares(r, if IsUserOwnerMiddleware in m then m else m + [IsUserOwnerMiddleware])
  }

  /**
   * One iteration of the patch loop. A target route ends up with its old
   * middlewares, preceded by clerk-auth if it is an auth target lacking it and
   * followed by is-user-owner if it is an owner target lacking it; its host
   * authentication is off when it is an auth target. Any other route is left
   * as it was.
   */
  function PatchRoute(r: Route): (p: Route)
    ensures p.verb == r.verb && p.path == r.path && p.handler == r.handler
    ensures r.handler !in ClerkAuthTargets && r.handler !in OwnerTargets ==> p == r
    ensures r.handler in ClerkAuthTargets || r.handler in OwnerTargets ==>
              Initialized(p) && PoliciesOf(p) == PoliciesOf(r)
    ensures r.handler in ClerkAuthTargets ==> p.config.value.auth == AuthOff
    ensures r.handler !in ClerkAuthTargets && r.config.Some? ==> p.config.value.auth == r.config.value.auth
    ensures MiddlewaresOf(p) ==
              (if r.handler in ClerkAuthTargets && ClerkAuthMiddleware !in MiddlewaresOf(r)
               then [ClerkAuthMiddleware] else [])
              + MiddlewaresOf(r)
              + (if r.handler in OwnerTargets && IsUserOwnerMiddleware !in MiddlewaresOf(r)
                 then [IsUserOwnerMiddleware] else [])
  {
    var r1 := if r.handler in ClerkAuthTargets then AddClerkAuth(InitializeRoute(r)) else r;
    if r.handler in OwnerTargets then AddIsUserOwner(InitializeRoute(r1)) else r1
  }

  /** Every route patched on its own. */
  function Patched(routes: seq<Route>): seq<Route> {
    seq(|routes|, i requires 0 <= i < |routes| => PatchRoute(routes[i]))
  }

  /** The `for` loop over the user routes, patching each in place. */
  method PatchRoutes(routes: seq<Route>) returns (patched: seq<Route>)
    ensures patched == Patched(routes)
  {
    patched := routes;
    var i := 0;
    while i < |routes|
      invariant 0 <= i <= |routes| && |patched| == |routes|
      invariant forall j :: 0 <= j < i ==> patched[j] == PatchRoute(routes[j])
      invariant forall j :: i <= j < |routes| ==> patched[j] == routes[j]
    {
      patched := patched[i := PatchRoute(patched[i])];
      i := i + 1;
    }
  }

  // ---------- lemmas ----------

  /** Every owner target is also an auth target. */
  lemma OwnerTargetsAreAuthTargets()
    ensures forall h :: h in OwnerTargets ==> h in ClerkAuthTargets
  {
  }

  predicate NoDuplicates(m: seq<string>) {
    forall i, j :: 0 <= i < j < |m| ==> m[i] != m[j]
  }

  /** Patching a patched route changes nothing. */
  lemma PatchRouteIdempotent(r: Route)
    ensures PatchRoute(PatchRoute(r)) == PatchRoute(r)
  {
    var p := PatchRoute(r);
    if r.handler in ClerkAuthTargets || r.handler in OwnerTargets {
      var m := MiddlewaresOf(p);
      if r.handler in ClerkAuthTargets {
        assert ClerkAuthMiddleware in m;
      }
      if r.handler in OwnerTargets {
        assert IsUserOwnerMiddleware in m;
      }
      assert MiddlewaresOf(PatchRoute(p)) == m;
    }
  }

  /** Running the whole patch twice gives the routes of running it once. */
  lemma PatchedIdempotent(routes: seq<Route>)
    ensures Patched(Patched(routes)) == Patched(routes)
  {
    forall i | 0 <= i < |routes|
      ensures Patched(Patched(routes))[i] == Patched(routes)[i]
    {
      PatchRouteIdempotent(routes[i]);
    }
  }

  lemma NoDuplicatesAppend(a: seq<string>, b: seq<string>)
    requires NoDuplicates(a) && NoDuplicates(b)
    requires forall x :: x in a ==> x !in b
    ensures NoDuplicates(a + b)
  {
    var p := a + b;
    forall i, j | 0 <= i < j < |p|
      ensures p[i] != p[j]
    {
      if j < |a| {
        assert p[i] == a[i] && p[j] == a[j];
      } else if i >= |a| {
        assert p[i] == b[i - |a|] && p[j] == b[j - |a|];
      } else {
        assert p[i] == a[i] && p[j] == b[j - |a|];
        assert a[i] in a && b[j - |a|] in b;
      }
    }
  }

  /** A route whose middleware list had no duplicates still has none. */
  lemma PatchKeepsNoDuplicates(r: Route)
    requires NoDuplicates(MiddlewaresOf(r))
    ensures NoDuplicates(MiddlewaresOf(PatchRoute(r)))
  {
    var m := MiddlewaresOf(r);
    var pre: seq<string> := if r.handler in ClerkAuthTargets && ClerkAuthMiddleware !in m then [ClerkAuthMiddleware] else [];
    var post: seq<string> := if r.handler in OwnerTargets && IsUserOwnerMiddleware !in m then [IsUserOwnerMiddleware] else [];
    NoDuplicatesAppend(pre, m);
    NoDuplicatesAppend(pre + m, post);
  }

  /**
   * On an owner route whose list lacked clerk-auth, clerk-auth comes first
   * and is-user-owner comes after it; on a route that had no middlewares the
   * list is exactly the two of them, in that order.
   */
  lemma AuthBeforeOwner(r: Route)
    requires r.handler in OwnerTargets && ClerkAuthMiddleware !in MiddlewaresOf(r)
    ensures var m := MiddlewaresOf(PatchRoute(r));
            |m| >= 2 && m[0] == ClerkAuthMiddleware && IsUserOwnerMiddleware in m[1..]
    ensures MiddlewaresOf(r) == [] ==>
              MiddlewaresOf(PatchRoute(r)) == [ClerkAuthMiddleware, IsUserOwnerMiddleware]
  {
    OwnerTargetsAreAuthTargets();
    var m0 := MiddlewaresOf(r);
    var m := MiddlewaresOf(PatchRoute(r));
    if IsUserOwnerMiddleware in m0 {
      assert m == [ClerkAuthMiddleware] + m0;
      assert m[1..] == m0;
    } else {
      assert m == [ClerkAuthMiddleware] + m0 + [IsUserOwnerMiddleware];
      assert m[|m| - 1] == IsUserOwnerMiddleware;
    }
  }

  /** The collection and `me` routes get clerk-auth but no ownership check. */
  lemma ListAndMeRoutesAreNotOwned(r: Route)
    requires r.handler == "user.find" || r.handler == "user.me"
    ensures ClerkAuthMiddleware in MiddlewaresOf(PatchRoute(r))
    ensures IsUserOwnerMiddleware in MiddlewaresOf(PatchRoute(r)) <==> IsUserOwnerMiddleware in MiddlewaresOf(r)
  {
  }
}
