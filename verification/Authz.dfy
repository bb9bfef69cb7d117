/** The authorization decision for /v1 and the matrix derived from the same registry.
    The registry is any table of classified routes. */
module Authz {
  import opened Prelude
  import opened Text
  import opened TextOrder
  import PublicId
  import AdminCheck

  datatype Requirement = Requirement(operatorOnly: bool, scope: string)

  type Registry = map<string, Requirement>

  datatype RouteRequirement = RouteRequirement(httpMethod: string, path: string, req: Requirement)
  {
    function Key(): string { RouteKey(httpMethod, path) }
  }

  function RouteKey(httpMethod: string, path: string): string { httpMethod + [' '] + path }

  /** Every key is a method, a space and a pattern; a method holds no space. */
  ghost predicate WellFormed(reg: Registry) {
    forall key :: key in reg ==> ' ' in key
  }

  // ---------------------------------------------------------------------
  // The derived lists
  // ---------------------------------------------------------------------

  function RouteOf(key: string, req: Requirement): RouteRequirement {
    RouteRequirement(Cut(key, ' ').0, Cut(key, ' ').1, req)
  }

  lemma KeyOfRoute(key: string, req: Requirement)
    requires ' ' in key
    ensures RouteOf(key, req).Key() == key && ' ' !in RouteOf(key, req).httpMethod
  {
  }

  lemma RouteOfKey(m: string, path: string, req: Requirement)
    requires ' ' !in m
    ensures RouteOf(RouteKey(m, path), req) == RouteRequirement(m, path, req)
  {
    CutFirst(m, path, ' ');
  }

  predicate KeyLe(a: RouteRequirement, b: RouteRequirement) { a.Key() == b.Key() || LexLess(a.Key(), b.Key()) }

  lemma KeyLeIsTotal()
    ensures TotalPreorder(KeyLe)
  {
    hide RouteRequirement.Key, LexLess;
    forall x: RouteRequirement, y: RouteRequirement ensures KeyLe(x, y) || KeyLe(y, x) {
      LexTotal(x.Key(), y.Key());
    }
    forall x, y, z | KeyLe(x, y) && KeyLe(y, z) ensures KeyLe(x, z) {
      if x.Key() != y.Key() && y.Key() != z.Key() { LexTransitive(x.Key(), y.Key(), z.Key()); }
    }
  }

  /** The list holds exactly the routes of the registry, each once, in key order. */
  ghost predicate Lists(routes: seq<RouteRequirement>, reg: Registry) {
    && (forall r :: r in routes <==> r.Key() in reg && r == RouteOf(r.Key(), reg[r.Key()]))
    && (forall i, j :: 0 <= i < j < |routes| ==> LexLess(routes[i].Key(), routes[j].Key()))
  }

  /** Whatever order the map is walked in, the sorted list is the same. */
  method AllRoutes(reg: Registry) returns (out: seq<RouteRequirement>)
    requires WellFormed(reg)
    ensures Lists(out, reg) && |out| == |reg|
  {
    hide RouteOf, LexLess;
    var routes: seq<RouteRequirement> := [];
    var rest := reg.Keys;
    while rest != {}
      invariant rest <= reg.Keys
      invariant Collected(routes, reg, reg.Keys - rest)
      invariant |routes| + |rest| == |reg.Keys|
      decreases |rest|
    {
      var key := PickElement(rest);
      CollectOne(routes, reg, reg.Keys - rest, key);
      assert reg.Keys - (rest - {key}) == reg.Keys - rest + {key};
      rest := rest - {key};
      routes := routes + [RouteOf(key, reg[key])];
    }
    assert reg.Keys - rest == reg.Keys;
    out := SortBy(routes, KeyLe);
    SortedRoutes(routes, reg, out);
  }

  ghost predicate Collected(routes: seq<RouteRequirement>, reg: Registry, keys: set<string>) {
    && keys <= reg.Keys
    && (forall r :: r in routes <==> r.Key() in keys && r == RouteOf(r.Key(), reg[r.Key()]))
    && (forall i, j :: 0 <= i < j < |routes| ==> routes[i].Key() != routes[j].Key())
  }

  lemma CollectOne(routes: seq<RouteRequirement>, reg: Registry, keys: set<string>, key: string)
    requires WellFormed(reg) && Collected(routes, reg, keys) && key in reg && key !in keys
    ensures Collected(routes + [RouteOf(key, reg[key])], reg, keys + {key})
  {
    hide RouteOf, RouteRequirement.Key;
    var next := RouteOf(key, reg[key]);
    KeyOfRoute(key, reg[key]);
    forall i | 0 <= i < |routes| ensures routes[i].Key() != key { assert routes[i] in routes; }
  }

  lemma SortedRoutes(routes: seq<RouteRequirement>, reg: Registry, out: seq<RouteRequirement>)
    requires Collected(routes, reg, reg.Keys) && out == SortBy(routes, KeyLe)
    ensures Lists(out, reg)
  {
    hide RouteOf, LexLess, SortBy, RouteRequirement.Key;
    KeyLeIsTotal();
    SortIsSorted(routes, KeyLe);
    SameElements(out, routes);
    DistinctKeys(routes);
    DistinctIffSingleCopies(routes);
    DistinctIffSingleCopies(out);
    forall i, j | 0 <= i < j < |out| ensures LexLess(out[i].Key(), out[j].Key()) {
      assert KeyLe(out[i], out[j]) && out[i] in routes && out[j] in routes && out[i] != out[j];
    }
  }

  lemma DistinctKeys(routes: seq<RouteRequirement>)
    requires forall i, j :: 0 <= i < j < |routes| ==> routes[i].Key() != routes[j].Key()
    ensures Distinct(routes)
  {
  }

  /** So the list is determined by the registry. */
  lemma ListIsDetermined(a: seq<RouteRequirement>, b: seq<RouteRequirement>, reg: Registry)
    requires Lists(a, reg) && Lists(b, reg)
    ensures a == b
  {
    hide RouteOf, LexLess, RouteRequirement.Key;
    KeyOrderIsStrict(a);
    KeyOrderIsStrict(b);
    DistinctKeys(a);
    DistinctKeys(b);
    SameMembersSameBag(a, b);
    SortedUnique(a, b, KeyLe);
  }

  lemma KeyOrderIsStrict(a: seq<RouteRequirement>)
    requires forall i, j :: 0 <= i < j < |a| ==> LexLess(a[i].Key(), a[j].Key())
    ensures forall i, j :: 0 <= i < j < |a| ==> a[i].Key() != a[j].Key()
    ensures SortedBy(a, KeyLe) && AntisymmetricOn(a, KeyLe)
  {
    hide LexLess, RouteRequirement.Key;
    forall i, j | 0 <= i < j < |a| ensures a[i].Key() != a[j].Key() {
      LexTotal(a[i].Key(), a[j].Key());
    }
    forall x, y | x in a && y in a && KeyLe(x, y) && KeyLe(y, x) ensures x == y {
      LexTotal(x.Key(), y.Key());
      var i, j :| 0 <= i < |a| && 0 <= j < |a| && a[i] == x && a[j] == y;
      assert !(i < j) && !(j < i);
    }
  }

  function Where(routes: seq<RouteRequirement>, operatorOnly: bool): seq<RouteRequirement> {
    if routes == [] then []
    else if routes[0].req.operatorOnly == operatorOnly then [routes[0]] + Where(routes[1..], operatorOnly)
    else Where(routes[1..], operatorOnly)
  }

  lemma {:induction false} WhereNext(routes: seq<RouteRequirement>, i: nat, operatorOnly: bool)
    requires i < |routes|
    ensures Where(routes[..i + 1], operatorOnly) ==
            Where(routes[..i], operatorOnly) + if routes[i].req.operatorOnly == operatorOnly then [routes[i]] else []
  {
    if i == 0 {
      assert routes[..1][1..] == [] && routes[..0] == [];
    } else {
      WhereNext(routes[1..], i - 1, operatorOnly);
      assert routes[..i + 1][1..] == routes[1..][..i] && routes[..i][1..] == routes[1..][..i - 1];
    }
  }

  /** The operator-only routes of the registry, or the others, in key order. */
  ghost predicate IsPart(out: seq<RouteRequirement>, reg: Registry, operatorOnly: bool) {
    exists all :: Lists(all, reg) && |all| == |reg| && out == Where(all, operatorOnly)
  }

  method ProjectReachableRoutes(reg: Registry) returns (out: seq<RouteRequirement>)
    requires WellFormed(reg)
    ensures IsPart(out, reg, false)
  {
    hide Lists, Where;
    var all := AllRoutes(reg);
    out := [];
    assert Where(all[..0], false) == [] by { NoRoutes(false); }
    for i := 0 to |all|
      invariant out == Where(all[..i], false)
    {
      WhereNext(all, i, false);
      if !all[i].req.operatorOnly {
        out := out + [all[i]];
      }
    }
    assert all[..|all|] == all;
  }

  method OperatorOnlyRoutes(reg: Registry) returns (out: seq<RouteRequirement>)
    requires WellFormed(reg)
    ensures IsPart(out, reg, true)
  {
    hide Lists, Where;
    var all := AllRoutes(reg);
    out := [];
    assert Where(all[..0], true) == [] by { NoRoutes(true); }
    for i := 0 to |all|
      invariant out == Where(all[..i], true)
    {
      WhereNext(all, i, true);
      if all[i].req.operatorOnly {
        out := out + [all[i]];
      }
    }
    assert all[..|all|] == all;
  }

  lemma NoRoutes(operatorOnly: bool)
    ensures Where([], operatorOnly) == []
  {
  }

  lemma {:induction false} WhereMembers(all: seq<RouteRequirement>, operatorOnly: bool)
    ensures forall r :: r in Where(all, operatorOnly) <==> r in all && r.req.operatorOnly == operatorOnly
  {
    if all != [] {
      WhereMembers(all[1..], operatorOnly);
      assert all == [all[0]] + all[1..];
    }
  }

  lemma {:induction false} WhereShares(all: seq<RouteRequirement>)
    ensures multiset(all) == multiset(Where(all, false)) + multiset(Where(all, true))
    ensures |Where(all, false)| + |Where(all, true)| == |all|
  {
    if all != [] {
      var rest := all[1..];
      WhereShares(rest);
      assert all == [all[0]] + rest;
      assert multiset(all) == multiset{all[0]} + multiset(rest);
      WhereStep(all);
    }
  }

  /** The two derived lists share the registry out between them: their sizes add up to
      its size, and each classified route is in the one its requirement says, under the
      requirement the registry holds, and in no other. */
  lemma ListsPartition(reg: Registry, reachable: seq<RouteRequirement>, operatorOnly: seq<RouteRequirement>)
    requires WellFormed(reg) && IsPart(reachable, reg, false) && IsPart(operatorOnly, reg, true)
    ensures |reachable| + |operatorOnly| == |reg|
    ensures forall key :: key in reg ==>
              && (RouteOf(key, reg[key]) in reachable <==> !reg[key].operatorOnly)
              && (RouteOf(key, reg[key]) in operatorOnly <==> reg[key].operatorOnly)
    ensures forall r :: r in reachable + operatorOnly ==> r.Key() in reg && r == RouteOf(r.Key(), reg[r.Key()])
    ensures forall r :: !(r in reachable && r in operatorOnly)
  {
    var all :| Lists(all, reg) && |all| == |reg| && reachable == Where(all, false);
    var same :| Lists(same, reg) && |same| == |reg| && operatorOnly == Where(same, true);
    ListIsDetermined(all, same, reg);
    WhereShares(all);
    WhereMembers(all, false);
    WhereMembers(all, true);
    forall key | key in reg ensures RouteOf(key, reg[key]) in all {
      KeyOfRoute(key, reg[key]);
    }
  }

  lemma WhereStep(all: seq<RouteRequirement>)
    requires all != []
    ensures var b := all[0].req.operatorOnly;
            && Where(all, b) == [all[0]] + Where(all[1..], b)
            && Where(all, !b) == Where(all[1..], !b)
  {
  }

  // ---------------------------------------------------------------------
  // The decision
  // ---------------------------------------------------------------------

  datatype AuthError =
    | ErrUnauthenticated | ErrForbidden | ErrAuthorizationUnavailable
    | ErrOperatorOnly | ErrWorkspaceMismatch | ErrInsufficientScope

  datatype Decision = Grant | Deny(error: AuthError)

  /** The answer of the live administrator check, when there is one to ask. */
  datatype LiveCheck = NoChecker | CheckFailed | Says(admin: bool)

  /** Who authentication found; `Neither` is a principal of no kind. */
  datatype Principal =
    | Nobody
    | Neither
    | Operator(roles: seq<string>, live: LiveCheck)
    | Project(workspaceId: string, scopes: seq<string>)

  const OPERATOR_ROLE := "admin"

  function RequirementFor(reg: Registry, httpMethod: string, route: string): Option<Requirement> {
    var key := RouteKey(httpMethod, route);
    if key in reg then Some(reg[key]) else None
  }

  function SameWorkspace(bound: string, fromPath: string): bool {
    match PublicId.Parse(PublicId.WORKSPACE_PREFIX, bound)
    case Err(_) => false
    case Ok(a) => match PublicId.Parse(PublicId.WORKSPACE_PREFIX, fromPath)
      case Err(_) => false
      case Ok(b) => a == b
  }

  method HasScope(granted: seq<string>, want: string) returns (held: bool)
    ensures held <==> want in granted
  {
    for i := 0 to |granted|
      invariant want !in granted[..i]
    {
      if granted[i] == want {
        return true;
      }
    }
    assert granted[..|granted|] == granted;
    return false;
  }

  function AuthorizeOperator(roles: seq<string>, live: LiveCheck): Decision {
    if OPERATOR_ROLE !in roles then Deny(ErrForbidden)
    else match live
      case NoChecker => Grant
      case CheckFailed => Deny(ErrAuthorizationUnavailable)
      case Says(admin) => if admin then Grant else Deny(ErrForbidden)
  }

  function AuthorizeProject(req: Requirement, bound: string, scopes: seq<string>, pathWorkspace: string): Decision {
    if req.operatorOnly then Deny(ErrOperatorOnly)
    else if pathWorkspace == "" then Deny(ErrForbidden)
    else if !SameWorkspace(bound, pathWorkspace) then Deny(ErrWorkspaceMismatch)
    else if req.scope !in scopes then Deny(ErrInsufficientScope)
    else Grant
  }

  function Authorize(reg: Registry, p: Principal, httpMethod: string, route: string, pathWorkspace: string): Decision {
    if p.Nobody? then Deny(ErrUnauthenticated)
    else match RequirementFor(reg, httpMethod, route)
      case None => Deny(ErrForbidden)
      case Some(req) =>
        match p
        case Operator(roles, live) => AuthorizeOperator(roles, live)
        case Project(bound, scopes) => AuthorizeProject(req, bound, scopes, pathWorkspace)
        case _ => Deny(ErrUnauthenticated)
  }

  lemma NoPathNoWorkspace(bound: string)
    ensures !SameWorkspace(bound, "")
  {
  }

  lemma ClassifiedIsListed(reg: Registry, all: seq<RouteRequirement>, m: string, route: string, req: Requirement)
    requires Lists(all, reg) && ' ' !in m
    ensures RequirementFor(reg, m, route) == Some(req) <==> RouteRequirement(m, route, req) in all
  {
    hide RouteOf, LexLess;
    if RouteKey(m, route) in reg { RouteOfKey(m, route, reg[RouteKey(m, route)]); }
    RouteOfKey(m, route, req);
  }

  /** A project call goes through exactly when its route is in the derived reachable
      list, the workspace in the path is the one the credential is bound to, and the
      scope that list demands is held. */
  lemma ProjectGrantedIff(reg: Registry, reachable: seq<RouteRequirement>, bound: string, scopes: seq<string>,
                          m: string, route: string, pathWorkspace: string)
    requires IsPart(reachable, reg, false) && ' ' !in m
    ensures Authorize(reg, Project(bound, scopes), m, route, pathWorkspace) == Grant
            <==> exists r :: r in reachable && r.httpMethod == m && r.path == route
                             && SameWorkspace(bound, pathWorkspace) && r.req.scope in scopes
  {
    hide Lists, SameWorkspace;
    var all :| Lists(all, reg) && |all| == |reg| && reachable == Where(all, false);
    hide Where;
    WhereMembers(all, false);
    NoPathNoWorkspace(bound);
    var found := RequirementFor(reg, m, route);
    if found.Some? {
      ClassifiedIsListed(reg, all, m, route, found.value);
      assert RouteRequirement(m, route, found.value) in all;
    }
    forall r | r in reachable && r.httpMethod == m && r.path == route
      ensures RequirementFor(reg, m, route) == Some(r.req)
    {
      assert r == RouteRequirement(m, route, r.req);
      ClassifiedIsListed(reg, all, m, route, r.req);
    }
  }

  /** The two texts name the same workspace, however each is spelled. */
  ghost predicate NameOneWorkspace(bound: string, fromPath: string) {
    exists u :: PublicId.Parse("ws", bound) == Ok(u) && PublicId.Parse("ws", fromPath) == Ok(u)
  }

  lemma SameMeansOne(bound: string, fromPath: string)
    ensures SameWorkspace(bound, fromPath) <==> NameOneWorkspace(bound, fromPath)
    ensures NameOneWorkspace(bound, fromPath) ==> fromPath != ""
  {
    NoPathNoWorkspace(bound);
    hide PublicId.Parse;
    var a := PublicId.Parse("ws", bound);
    if SameWorkspace(bound, fromPath) {
      assert a == Ok(a.value) && PublicId.Parse("ws", fromPath) == Ok(a.value);
    }
  }

  /** Who is let through, exactly: on a classified route, an operator with the role whom
      no live check turns away, or a project bound to the workspace in the path and
      holding the scope of a route that is not for operators alone. */
  lemma GrantedIff(reg: Registry, p: Principal, m: string, route: string, pathWorkspace: string)
    ensures var key := m + " " + route;
            Authorize(reg, p, m, route, pathWorkspace) == Grant <==>
              && key in reg
              && (|| (p.Operator? && "admin" in p.roles && (p.live.NoChecker? || p.live == Says(true)))
                  || (p.Project? && !reg[key].operatorOnly && reg[key].scope in p.scopes
                      && NameOneWorkspace(p.workspaceId, pathWorkspace)))
  {
    hide SameWorkspace, NameOneWorkspace;
    assert RouteKey(m, route) == m + " " + route;
    if p.Project? { SameMeansOne(p.workspaceId, pathWorkspace); }
  }

  /** And which refusal everybody else gets. The role is looked at before the live check,
      so without it the answer does not depend on that check. */
  lemma RefusalsAreExplained(reg: Registry, p: Principal, m: string, route: string, pathWorkspace: string)
    ensures var d := Authorize(reg, p, m, route, pathWorkspace);
            var key := m + " " + route;
            && (p.Nobody? ==> d == Deny(ErrUnauthenticated))
            && (!p.Nobody? && key !in reg ==> d == Deny(ErrForbidden))
            && (p.Neither? && key in reg ==> d == Deny(ErrUnauthenticated))
            && (p.Operator? && key in reg ==>
                  && ("admin" !in p.roles ==> d == Deny(ErrForbidden))
                  && ("admin" in p.roles && p.live.CheckFailed? ==> d == Deny(ErrAuthorizationUnavailable))
                  && ("admin" in p.roles && p.live == Says(false) ==> d == Deny(ErrForbidden)))
            && (p.Project? && key in reg ==>
                  if reg[key].operatorOnly then d == Deny(ErrOperatorOnly)
                  else if pathWorkspace == "" then d == Deny(ErrForbidden)
                  else if !NameOneWorkspace(p.workspaceId, pathWorkspace) then d == Deny(ErrWorkspaceMismatch)
                  else if reg[key].scope !in p.scopes then d == Deny(ErrInsufficientScope)
                  else d == Grant)
  {
    hide SameWorkspace, NameOneWorkspace;
    assert RouteKey(m, route) == m + " " + route;
    if p.Project? { SameMeansOne(p.workspaceId, pathWorkspace); }
  }

  /** What an answer of the cached checker tells the decision. */
  function LiveOf(a: AdminCheck.Answer): LiveCheck {
    if a.failed then CheckFailed else Says(a.isAdmin)
  }

  /** Across any interleaving of lookups, an operator let through on an answer of the
      cached checker holds the role in the token and was an administrator upstream within
      the cache's lifetime and the time the sample took to be stored; an answer that is an
      error lets nobody through. */
  lemma OperatorsAreLiveAdmins(reg: Registry, roles: seq<string>, m: string, route: string, pathWorkspace: string,
                               states: seq<AdminCheck.State>, steps: seq<AdminCheck.Step>, ttl: int,
                               up: (string, int) -> bool, i: nat, a: AdminCheck.Answer)
    requires ttl > 0 && AdminCheck.IsRun(states, steps, ttl, up) && i < |states| && a in states[i].answers
    requires Authorize(reg, Operator(roles, LiveOf(a)), m, route, pathWorkspace) == Grant
    ensures "admin" in roles && !a.failed && up(a.subject, a.origin.sampledAt)
    ensures a.origin.sampledAt <= a.at < a.origin.sampledAt + ttl + (a.origin.storedAt - a.origin.sampledAt)
  {
    GrantedIff(reg, Operator(roles, LiveOf(a)), m, route, pathWorkspace);
    hide Authorize, AdminCheck.IsRun;
    AdminCheck.StalenessBound(states, steps, ttl, up, i, a);
  }

  /** More scopes never take a grant away, and a credential is never granted more than
      an operator holding the role and confirmed by the live check. */
  lemma GrantsAreMonotone(reg: Registry, bound: string, scopes: seq<string>, more: seq<string>,
                          m: string, route: string, pathWorkspace: string, roles: seq<string>)
    requires forall s :: s in scopes ==> s in more
    requires Authorize(reg, Project(bound, scopes), m, route, pathWorkspace) == Grant
    ensures Authorize(reg, Project(bound, more), m, route, pathWorkspace) == Grant
    ensures OPERATOR_ROLE in roles ==> Authorize(reg, Operator(roles, Says(true)), m, route, pathWorkspace) == Grant
  {
  }

  /** A credential bound to one workspace is granted nothing under another, however the
      path spells either; under its own, the spelling does not matter. */
  lemma BindingIsBySubstance(u: string, v: string, path: string)
    requires PublicId.Canonical(u) && PublicId.Canonical(v)
    ensures SameWorkspace(PublicId.Format(PublicId.WORKSPACE_PREFIX, u), path)
            <==> PublicId.Parse(PublicId.WORKSPACE_PREFIX, path) == Ok(u)
    ensures SameWorkspace(PublicId.Format(PublicId.WORKSPACE_PREFIX, u), PublicId.Format(PublicId.WORKSPACE_PREFIX, v))
            <==> u == v
    ensures SameWorkspace(PublicId.Format(PublicId.WORKSPACE_PREFIX, u), v) <==> u == v
  {
    hide PublicId.Parse, PublicId.Format, PublicId.Canonical;
    assert PublicId.GoodPrefix(PublicId.WORKSPACE_PREFIX);
    PublicId.ParseOfFormat(PublicId.WORKSPACE_PREFIX, u, path);
    PublicId.ParseOfFormat(PublicId.WORKSPACE_PREFIX, v, path);
  }

  // ---------------------------------------------------------------------
  // Completeness at boot
  // ---------------------------------------------------------------------

  predicate TextLe(a: string, b: string) { a == b || LexLess(a, b) }

  function Unclassified(mounted: seq<string>, reg: Registry): seq<string> {
    if mounted == [] then []
    else (if mounted[0] in reg then [] else [mounted[0]]) + Unclassified(mounted[1..], reg)
  }

  lemma {:induction false} UnclassifiedNext(mounted: seq<string>, i: nat, reg: Registry)
    requires i < |mounted|
    ensures Unclassified(mounted[..i + 1], reg) ==
            Unclassified(mounted[..i], reg) + if mounted[i] in reg then [] else [mounted[i]]
  {
    if i == 0 {
      assert mounted[..1][1..] == [] && mounted[..0] == [];
    } else {
      UnclassifiedNext(mounted[1..], i - 1, reg);
      assert mounted[..i + 1][1..] == mounted[1..][..i] && mounted[..i][1..] == mounted[1..][..i - 1];
    }
  }

  lemma {:induction false} UnclassifiedAre(mounted: seq<string>, reg: Registry)
    ensures forall r :: r in Unclassified(mounted, reg) <==> r in mounted && r !in reg
  {
    if mounted != [] {
      UnclassifiedAre(mounted[1..], reg);
      assert mounted == [mounted[0]] + mounted[1..];
    }
  }

  /** The boot check: the mounted routes without a classification, sorted; none is
      success. */
  method ValidateRegistry(reg: Registry, mounted: seq<string>) returns (missing: seq<string>)
    ensures missing == SortBy(Unclassified(mounted, reg), TextLe)
    ensures forall i, j :: 0 <= i < j < |missing| ==> missing[i] == missing[j] || LexLess(missing[i], missing[j])
    ensures missing == [] <==> forall r :: r in mounted ==> r in reg
    ensures forall r :: r in missing <==> r in mounted && r !in reg
  {
    hide SortBy, Unclassified;
    missing := [];
    assert Unclassified(mounted[..0], reg) == [] by { NothingMounted(reg); }
    for i := 0 to |mounted|
      invariant missing == Unclassified(mounted[..i], reg)
    {
      UnclassifiedNext(mounted, i, reg);
      if mounted[i] !in reg {
        missing := missing + [mounted[i]];
      }
    }
    assert mounted[..|mounted|] == mounted;
    UnclassifiedAre(mounted, reg);
    ghost var found := missing;
    TextLeIsTotal();
    SortIsSorted(missing, TextLe);
    missing := SortBy(missing, TextLe);
    SameElements(missing, found);
    assert forall i, j :: 0 <= i < j < |missing| ==> TextLe(missing[i], missing[j]);
    if missing != [] { assert missing[0] in missing; }
  }

  lemma TextLeIsTotal()
    ensures TotalPreorder(TextLe)
  {
    hide LexLess;
    forall x, y ensures TextLe(x, y) || TextLe(y, x) { LexTotal(x, y); }
    forall x, y, z | TextLe(x, y) && TextLe(y, z) ensures TextLe(x, z) {
      if x != y && y != z { LexTransitive(x, y, z); }
    }
  }

  lemma NothingMounted(reg: Registry)
    ensures Unclassified([], reg) == []
  {
  }

  /** When the boot check passes, no mounted route is refused for want of a
      classification: a confirmed operator gets through every one of them, and a
      project is only ever refused for a reason of its own. */
  lemma ValidatedRoutesAreDecided(reg: Registry, mounted: seq<string>, m: string, route: string,
                                  roles: seq<string>, bound: string, scopes: seq<string>, pathWorkspace: string)
    requires Unclassified(mounted, reg) == [] && RouteKey(m, route) in mounted
    ensures OPERATOR_ROLE in roles ==> Authorize(reg, Operator(roles, Says(true)), m, route, pathWorkspace) == Grant
    ensures Authorize(reg, Project(bound, scopes), m, route, pathWorkspace) == Deny(ErrForbidden)
            ==> pathWorkspace == ""
  {
    hide SameWorkspace;
    UnclassifiedAre(mounted, reg);
    assert RouteKey(m, route) !in Unclassified(mounted, reg);
  }
}
