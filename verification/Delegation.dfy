/**
 * Scoped delegation of administrative roles: the permission catalog, the guards in front of a grant, and
 * the runs of assign and revoke requests they stand guard over.
 */
module Delegation {
  import opened Common
  import opened Evaluator

  type Action = string
  type RoleKey = string
  type UnitId = string

  const ALL_ACTIONS: set<Action> := {
    "user:read", "user:create", "user:update", "user:activate", "user:deactivate",
    "group:read", "group:create", "group:update", "group:manage_members",
    "org_unit:read", "org_unit:create", "org_unit:update", "org_unit:delete",
    "role:assign", "audit:read", "connector:read", "connector:manage", "sso_app:read", "sso_app:manage",
    "business_role:read", "business_role:manage", "recert:read", "recert:manage",
    "organization:read", "organization:create", "organization:update",
    "attribute:read", "attribute:manage", "jml:read", "jml:manage"}

  const READ_ONLY_ACTIONS: set<Action> := {"user:read", "group:read", "org_unit:read"}

  const SUPER_ADMIN: RoleKey := "super_admin"
  const ASSIGN: Action := "role:assign"
  /** Below every rank of the catalog. */
  const NO_PRIVILEGE: int := -1

  /** What each role may do; a key the catalog does not know may do nothing. */
  function Permissions(role: RoleKey): set<Action> {
    if role == SUPER_ADMIN then ALL_ACTIONS
    else if role == "user_admin" then
      {"user:read", "user:create", "user:update", "user:activate", "user:deactivate", "group:read", "group:create",
       "group:update", "group:manage_members", "org_unit:read", "business_role:read", "recert:read", "attribute:read",
       "jml:read"}
    else if role == "help_desk" then {"user:read", "user:update", "group:read", "org_unit:read"}
    else if role == "auditor" then
      READ_ONLY_ACTIONS
      + {"audit:read", "connector:read", "business_role:read", "recert:read", "attribute:read", "jml:read"}
    else if role == "read_only" then
      READ_ONLY_ACTIONS + {"business_role:read", "recert:read", "attribute:read", "jml:read"}
    else {}
  }

  function Rank(role: RoleKey): Option<int> {
    if role == SUPER_ADMIN then Some(40)
    else if role == "user_admin" then Some(30)
    else if role == "help_desk" then Some(20)
    else if role == "auditor" then Some(10)
    else if role == "read_only" then Some(0)
    else None
  }

  // ---------------------------------------------------------------- actors and what they hold

  /** A grant as the actor carries it: scoped to an org unit, with its path, or global. */
  datatype Holding = Holding(role: RoleKey, scope: Option<UnitId>, scopePath: Option<string>)

  datatype Actor = Actor(userId: UserId, holdings: seq<Holding>)

  type Tree = map<UnitId, string>

  predicate Grants(h: Holding, action: Action) {
    action in Permissions(h.role)
  }

  predicate Reaches(h: Holding, path: string) {
    h.scope.None? || (h.scopePath.Some? && IsAtOrBelow(path, h.scopePath.value))
  }

  /** The assignments that grant the action, whatever their scope. */
  function GrantingAssignments(actor: Actor, action: Action): (granting: seq<Holding>)
    ensures forall h :: h in granting <==> h in actor.holdings && Grants(h, action)
  {
    Filtered(actor.holdings, action)
  }

  function Filtered(holdings: seq<Holding>, action: Action): (granting: seq<Holding>)
    ensures forall h :: h in granting <==> h in holdings && Grants(h, action)
  {
    if holdings == [] then []
    else (if Grants(holdings[0], action) then [holdings[0]] else []) + Filtered(holdings[1..], action)
  }

  predicate AnyGlobal(holdings: seq<Holding>) {
    exists i | 0 <= i < |holdings| :: holdings[i].scope.None?
  }

  /** The paths of the scoped holdings. */
  function ScopePaths(holdings: seq<Holding>): (paths: seq<string>)
    ensures forall p :: p in paths <==> exists i | 0 <= i < |holdings| :: holdings[i].scopePath == Some(p)
  {
    if holdings == [] then []
    else
      var rest := ScopePaths(holdings[1..]);
      var paths := (if holdings[0].scopePath.Some? then [holdings[0].scopePath.value] else []) + rest;
      assert forall i | 1 <= i < |holdings| :: holdings[i] == holdings[1..][i - 1];
      assert forall p | p in rest :: exists i :: 0 <= i < |holdings| && holdings[i].scopePath == Some(p) by {
        forall p | p in rest ensures exists i :: 0 <= i < |holdings| && holdings[i].scopePath == Some(p) {
          var i :| 0 <= i < |holdings[1..]| && holdings[1..][i].scopePath == Some(p);
          assert holdings[i + 1].scopePath == Some(p);
        }
      }
      paths
  }

  predicate UnderAny(path: string, ancestors: seq<string>) {
    exists i | 0 <= i < |ancestors| :: IsAtOrBelow(path, ancestors[i])
  }

  predicate CanAnywhere(actor: Actor, action: Action) {
    GrantingAssignments(actor, action) != []
  }

  /** Whether the actor may do this over this org unit. */
  predicate CanIn(tree: Tree, actor: Actor, action: Action, unit: UnitId) {
    var granting := GrantingAssignments(actor, action);
    if granting == [] then false
    else if AnyGlobal(granting) then true
    else
      var paths := ScopePaths(granting);
      paths != [] && unit in tree && UnderAny(tree[unit], paths)
  }

  /** None means everywhere, the empty list means nowhere. */
  function ScopePathsFor(actor: Actor, action: Action): Option<seq<string>> {
    var granting := GrantingAssignments(actor, action);
    if AnyGlobal(granting) then None else Some(ScopePaths(granting))
  }

  /** A global holding has no path, a scoped one has the path of its unit. */
  ghost predicate WellResolved(tree: Tree, actor: Actor) {
    forall h | h in actor.holdings ::
      if h.scope.None? then h.scopePath.None? else h.scope.value in tree && h.scopePath == Some(tree[h.scope.value])
  }

  lemma UnderAnyIffReached(granting: seq<Holding>, path: string)
    requires !AnyGlobal(granting)
    ensures UnderAny(path, ScopePaths(granting)) <==> exists h :: h in granting && Reaches(h, path)
  {
    var paths := ScopePaths(granting);
    if UnderAny(path, paths) {
      var i :| 0 <= i < |paths| && IsAtOrBelow(path, paths[i]);
      assert paths[i] in paths;
      var j :| 0 <= j < |granting| && granting[j].scopePath == Some(paths[i]);
      assert granting[j] in granting && Reaches(granting[j], path);
    }
    if h :| h in granting && Reaches(h, path) {
      var j :| 0 <= j < |granting| && granting[j] == h;
      assert h.scope.Some?;
      assert h.scopePath.value in paths;
      var i :| 0 <= i < |paths| && paths[i] == h.scopePath.value;
    }
  }

  /** The check and the filter agree: on every existing org unit `CanIn` says yes exactly when a listing
      filtered by `ScopePathsFor` would show it, None filtering nothing and the empty list everything; and
      both say yes exactly when some holding grants the action and reaches the unit. */
  lemma CheckAgreesWithFilter(tree: Tree, actor: Actor, action: Action, unit: UnitId)
    requires unit in tree
    ensures CanIn(tree, actor, action, unit) <==>
      ScopePathsFor(actor, action).None? || UnderAny(tree[unit], ScopePathsFor(actor, action).value)
    ensures CanIn(tree, actor, action, unit) <==>
      exists h :: h in actor.holdings && Grants(h, action) && Reaches(h, tree[unit])
    ensures !CanAnywhere(actor, action) ==> ScopePathsFor(actor, action) == Some([])
  {
    var granting := GrantingAssignments(actor, action);
    if AnyGlobal(granting) {
      var i :| 0 <= i < |granting| && granting[i].scope.None?;
      assert granting[i] in granting && Reaches(granting[i], tree[unit]);
    } else {
      UnderAnyIffReached(granting, tree[unit]);
    }
  }

  // ---------------------------------------------------------------- the guards

  datatype Denial =
    | NoSuchUser
    | NoSuchUnit
    | NoSuchAssignment
    | NotPermitted
    | RoleNotHeld
    | NotGlobally
    | NotAtThatScope
    | UnknownRoleKey(role: RoleKey)
    | MorePrivileged
    | AlreadyHeld

  function HoldingsOf(holdings: seq<Holding>, role: RoleKey): (own: seq<Holding>)
    ensures forall h :: h in own <==> h in holdings && (h.role == role || h.role == SUPER_ADMIN)
  {
    if holdings == [] then []
    else
      (if holdings[0].role == role || holdings[0].role == SUPER_ADMIN then [holdings[0]] else [])
      + HoldingsOf(holdings[1..], role)
  }

  /** Only a role one holds, at a scope one's own holding covers. */
  function AssignDenial(tree: Tree, actor: Actor, role: RoleKey, scope: Option<UnitId>): Option<Denial> {
    var holdings := HoldingsOf(actor.holdings, role);
    if holdings == [] then Some(RoleNotHeld)
    else if AnyGlobal(holdings) then None
    else if scope.None? then Some(NotGlobally)
    else if scope.value in tree && UnderAny(tree[scope.value], ScopePaths(holdings)) then None
    else Some(NotAtThatScope)
  }

  function Max(a: int, b: int): int {
    if a < b then b else a
  }

  /** The actor's rank; a key the catalog does not know counts for nothing. */
  function HighestRank(holdings: seq<Holding>): int {
    if holdings == [] then NO_PRIVILEGE
    else
      var n := |holdings| - 1;
      var rank := Rank(holdings[n].role);
      Max(HighestRank(holdings[..n]), if rank.Some? then rank.value else NO_PRIVILEGE)
  }

  /** The target's rank; here a key the catalog does not know is a fault, and the first one is named. */
  function TargetRank(roles: seq<RoleKey>): Result<int, RoleKey> {
    if roles == [] then Ok(NO_PRIVILEGE)
    else
      var n := |roles| - 1;
      match TargetRank(roles[..n])
      case Err(role) => Err(role)
      case Ok(highest) =>
        if Rank(roles[n]).None? then Err(roles[n]) else Ok(Max(highest, Rank(roles[n]).value))
  }

  function ModifyDenial(actor: Actor, targetRoles: seq<RoleKey>): Option<Denial> {
    match TargetRank(targetRoles)
    case Err(role) => Some(UnknownRoleKey(role))
    case Ok(rank) => if HighestRank(actor.holdings) < rank then Some(MorePrivileged) else None
  }

  /** Some holding is of a role the catalog knows and of at least this rank. */
  predicate HoldsRank(holdings: seq<Holding>, rank: int) {
    exists h | h in holdings :: Rank(h.role).Some? && Rank(h.role).value >= rank
  }

  /** The highest rank is the rank of some holding and of none exceeded; without any known role it lies
      below every rank, so that even `read_only` is more privileged. */
  lemma {:induction false} HighestRankMeaning(holdings: seq<Holding>, rank: int)
    ensures rank > NO_PRIVILEGE ==> (HighestRank(holdings) >= rank <==> HoldsRank(holdings, rank))
    ensures HighestRank(holdings) >= NO_PRIVILEGE
    ensures HighestRank(holdings) == NO_PRIVILEGE <==> forall h | h in holdings :: Rank(h.role).None?
  {
    if holdings != [] {
      var n := |holdings| - 1;
      HighestRankMeaning(holdings[..n], rank);
      assert forall h :: h in holdings <==> h in holdings[..n] || h == holdings[n];
    }
  }

  /** The guard: every role of the target is known, and somebody with no rank at all may modify only
      somebody without roles. */
  lemma ModifyDenialMeaning(actor: Actor, targetRoles: seq<RoleKey>)
    ensures ModifyDenial(actor, targetRoles) == None <==>
      forall r | r in targetRoles :: Rank(r).Some? && HoldsRank(actor.holdings, Rank(r).value)
  {
    TargetRankMeaning(targetRoles);
    forall r | r in targetRoles && Rank(r).Some?
      ensures HighestRank(actor.holdings) >= Rank(r).value <==> HoldsRank(actor.holdings, Rank(r).value)
    {
      HighestRankMeaning(actor.holdings, Rank(r).value);
    }
    HighestRankMeaning(actor.holdings, 0);
  }

  lemma {:induction false} TargetRankMeaning(roles: seq<RoleKey>)
    ensures TargetRank(roles).Ok? <==> forall r | r in roles :: Rank(r).Some?
    ensures TargetRank(roles).Ok? ==>
      && (forall r | r in roles :: Rank(r).value <= TargetRank(roles).value)
      && (if roles == [] then TargetRank(roles).value == NO_PRIVILEGE
          else exists r :: r in roles && Rank(r).value == TargetRank(roles).value)
  {
    if roles != [] {
      var n := |roles| - 1;
      TargetRankMeaning(roles[..n]);
      assert forall r :: r in roles <==> r in roles[..n] || r == roles[n];
    }
  }

  lemma RankAtLeast(holdings: seq<Holding>, h: Holding)
    requires h in holdings && Rank(h.role).Some?
    ensures HighestRank(holdings) >= Rank(h.role).value
  {
    HighestRankMeaning(holdings, Rank(h.role).value);
  }

  /** Somebody without roles is below even a read-only target. */
  lemma RolelessIsBelowReadOnly(userId: UserId)
    ensures ModifyDenial(Actor(userId, []), ["read_only"]) == Some(MorePrivileged)
  {
    assert ["read_only"][..0] == [];
    assert TargetRank(["read_only"]) == Ok(0);
  }

  /** Only super admins may assign roles, */
  lemma AssignersAreSuperAdmins(h: Holding)
    ensures Grants(h, ASSIGN) <==> h.role == SUPER_ADMIN
  {
    assert ASSIGN[0] == 'r' && ASSIGN[1] == 'o';
    var others := {"user:read", "user:create", "user:update", "user:activate", "user:deactivate", "group:read",
      "group:create", "group:update", "group:manage_members", "org_unit:read", "business_role:read", "recert:read",
      "attribute:read", "jml:read", "audit:read", "connector:read"};
    assert forall a | a in others :: a[0] != 'r' || a[1] != 'o';
    assert ASSIGN !in others;
    if h.role != SUPER_ADMIN {
      assert Permissions(h.role) <= others;
    }
  }

  /** so once the permission check has passed, the rank check can only fail on a role key nobody knows. */
  lemma RankCheckFollows(tree: Tree, actor: Actor, unit: UnitId, targetRoles: seq<RoleKey>)
    requires CanIn(tree, actor, ASSIGN, unit)
    ensures ModifyDenial(actor, targetRoles) == None <==> forall r | r in targetRoles :: Rank(r).Some?
  {
    var granting := GrantingAssignments(actor, ASSIGN);
    var h := granting[0];
    assert h in granting;
    AssignersAreSuperAdmins(h);
    ModifyDenialMeaning(actor, targetRoles);
  }

  // ---------------------------------------------------------------- authority

  /** `None` is everywhere: the authority over every unit there is or will be. */
  type Place = Option<UnitId>

  predicate MayAt(tree: Tree, h: Holding, action: Action, place: Place) {
    Grants(h, action) &&
    if place.None? then h.scope.None? else place.value in tree && Reaches(h, tree[place.value])
  }

  predicate ActorMay(tree: Tree, actor: Actor, action: Action, place: Place) {
    exists i | 0 <= i < |actor.holdings| :: MayAt(tree, actor.holdings[i], action, place)
  }

  function Resolved(tree: Tree, role: RoleKey, scope: Option<UnitId>): Holding {
    Holding(role, scope, if scope.Some? && scope.value in tree then Some(tree[scope.value]) else None)
  }

  lemma SuperAdminMayAll(role: RoleKey)
    ensures Permissions(role) <= Permissions(SUPER_ADMIN)
  {
  }

  lemma BelowIsTransitive(a: string, b: string, c: string)
    requires IsAtOrBelow(a, b) && IsAtOrBelow(b, c)
    ensures IsAtOrBelow(a, c)
  {
    SubtreeIsLabelPrefix(a, b);
    SubtreeIsLabelPrefix(b, c);
    SubtreeIsLabelPrefix(a, c);
  }

  /** Whatever a permitted grant lets its holder do, and wherever, the granter may do there. */
  lemma GrantStaysInsideGranter(tree: Tree, actor: Actor, role: RoleKey, scope: Option<UnitId>, action: Action, place: Place)
    requires AssignDenial(tree, actor, role, scope) == None
    requires MayAt(tree, Resolved(tree, role, scope), action, place)
    ensures ActorMay(tree, actor, action, place)
  {
    var holdings := HoldingsOf(actor.holdings, role);
    SuperAdminMayAll(role);
    if AnyGlobal(holdings) {
      var i :| 0 <= i < |holdings| && holdings[i].scope.None?;
      HoldingFound(tree, actor, holdings[i], action, place);
    } else {
      UnderAnyIffReached(holdings, tree[scope.value]);
      var h :| h in holdings && Reaches(h, tree[scope.value]);
      assert h.scope.Some?;
      BelowIsTransitive(tree[place.value], tree[scope.value], h.scopePath.value);
      HoldingFound(tree, actor, h, action, place);
    }
  }

  lemma HoldingFound(tree: Tree, actor: Actor, h: Holding, action: Action, place: Place)
    requires h in actor.holdings && MayAt(tree, h, action, place)
    ensures ActorMay(tree, actor, action, place)
  {
    var i :| 0 <= i < |actor.holdings| && actor.holdings[i] == h;
  }

  /** And whatever rank it has, the granter holds a role of at least that rank. */
  lemma GrantStaysBelowGranter(tree: Tree, actor: Actor, role: RoleKey, scope: Option<UnitId>, rank: int)
    requires AssignDenial(tree, actor, role, scope) == None && Rank(role).Some? && Rank(role).value >= rank
    ensures HoldsRank(actor.holdings, rank) && Rank(role).value <= HighestRank(actor.holdings)
  {
    var h := HoldingsOf(actor.holdings, role)[0];
    assert h in HoldingsOf(actor.holdings, role);
    RankAtLeast(actor.holdings, h);
  }

  // ---------------------------------------------------------------- the grant table

  type AssignmentId = nat

  datatype Assignment = Assignment(id: AssignmentId, userId: UserId, role: RoleKey, scope: Option<UnitId>)

  /** The org tree and where each user sits: fixed while grants come and go. */
  datatype Directory = Directory(tree: Tree, users: map<UserId, UnitId>)

  /** What the request resolves about its caller: all their grants, each with its path. */
  function HoldingsIn(tree: Tree, rows: seq<Assignment>, userId: UserId): (hs: seq<Holding>)
    ensures forall h :: h in hs <==> exists r :: r in rows && r.userId == userId && h == Resolved(tree, r.role, r.scope)
  {
    if rows == [] then []
    else
      assert forall r :: r in rows <==> r == rows[0] || r in rows[1..];
      (if rows[0].userId == userId then [Resolved(tree, rows[0].role, rows[0].scope)] else [])
      + HoldingsIn(tree, rows[1..], userId)
  }

  function RolesIn(rows: seq<Assignment>, userId: UserId): seq<RoleKey> {
    if rows == [] then []
    else (if rows[0].userId == userId then [rows[0].role] else []) + RolesIn(rows[1..], userId)
  }

  function Without(rows: seq<Assignment>, id: AssignmentId): (rest: seq<Assignment>)
    ensures forall r :: r in rest <==> r in rows && r.id != id
  {
    if rows == [] then [] else (if rows[0].id == id then [] else [rows[0]]) + Without(rows[1..], id)
  }

  function FindById(rows: seq<Assignment>, id: AssignmentId): (found: Option<Assignment>)
    ensures found.Some? ==> found.value in rows && found.value.id == id
    ensures found.None? ==> forall r | r in rows :: r.id != id
  {
    if rows == [] then None else if rows[0].id == id then Some(rows[0]) else FindById(rows[1..], id)
  }

  predicate Held(rows: seq<Assignment>, userId: UserId, role: RoleKey, scope: Option<UnitId>) {
    exists i | 0 <= i < |rows| :: rows[i].userId == userId && rows[i].role == role && rows[i].scope == scope
  }

  /** Everything an assignment is checked for before its transaction opens, in order. */
  function AssignChecks(d: Directory, rows: seq<Assignment>, actor: Actor, userId: UserId, role: RoleKey, scope: Option<UnitId>)
    : Option<Denial>
  {
    if userId !in d.users then Some(NoSuchUser)
    else if !CanIn(d.tree, actor, ASSIGN, d.users[userId]) then Some(NotPermitted)
    else if AssignDenial(d.tree, actor, role, scope).Some? then AssignDenial(d.tree, actor, role, scope)
    else ModifyDenial(actor, RolesIn(rows, userId))
  }

  /** What the insert itself refuses. */
  function InsertDenial(d: Directory, rows: seq<Assignment>, userId: UserId, role: RoleKey, scope: Option<UnitId>): Option<Denial> {
    if userId !in d.users then Some(NoSuchUser)
    else if scope.Some? && scope.value !in d.tree then Some(NoSuchUnit)
    else if Held(rows, userId, role, scope) then Some(AlreadyHeld)
    else None
  }

  /** A revocation is checked against the grant it removes, as granting it would be. */
  function RevokeChecks(d: Directory, rows: seq<Assignment>, actor: Actor, userId: UserId, id: AssignmentId): Option<Denial> {
    match FindById(rows, id)
    case None => Some(NoSuchAssignment)
    case Some(current) =>
      if current.userId != userId then Some(NoSuchAssignment)
      else AssignChecks(d, rows, actor, userId, current.role, current.scope)
  }

  class GrantTable {
    const d: Directory
    var rows: seq<Assignment>
    var nextId: AssignmentId

    constructor (directory: Directory)
      ensures d == directory && rows == [] && nextId == 0
    {
      d, rows, nextId := directory, [], 0;
    }

    method Check(actor: Actor, userId: UserId, role: RoleKey, scope: Option<UnitId>) returns (denial: Option<Denial>)
      ensures denial == AssignChecks(d, rows, actor, userId, role, scope)
    {
      if userId !in d.users {
        return Some(NoSuchUser);
      }
      if !CanIn(d.tree, actor, ASSIGN, d.users[userId]) {
        return Some(NotPermitted);
      }
      denial := AssignDenial(d.tree, actor, role, scope);
      if denial.Some? {
        return;
      }
      denial := ModifyDenial(actor, RolesIn(rows, userId));
    }

    method Insert(userId: UserId, role: RoleKey, scope: Option<UnitId>) returns (denial: Option<Denial>)
      modifies this
      ensures denial == InsertDenial(d, old(rows), userId, role, scope)
      ensures rows == if denial.None? then old(rows) + [Assignment(old(nextId), userId, role, scope)] else old(rows)
      ensures nextId == if denial.None? then old(nextId) + 1 else old(nextId)
    {
      denial := InsertDenial(d, rows, userId, role, scope);
      if denial.None? {
        rows, nextId := rows + [Assignment(nextId, userId, role, scope)], nextId + 1;
      }
    }

    method Assign(actor: Actor, userId: UserId, role: RoleKey, scope: Option<UnitId>) returns (denial: Option<Denial>)
      modifies this
      ensures var refused := AssignChecks(d, old(rows), actor, userId, role, scope);
        denial == if refused.Some? then refused else InsertDenial(d, old(rows), userId, role, scope)
      ensures rows == if denial.None? then old(rows) + [Assignment(old(nextId), userId, role, scope)] else old(rows)
    {
      denial := Check(actor, userId, role, scope);
      if denial.None? {
        denial := Insert(userId, role, scope);
      }
    }

    method Revoke(actor: Actor, userId: UserId, id: AssignmentId) returns (denial: Option<Denial>)
      modifies this
      ensures denial == RevokeChecks(d, old(rows), actor, userId, id)
      ensures rows == if denial.None? then Without(old(rows), id) else old(rows)
    {
      var current := FindById(rows, id);
      if current.None? || current.value.userId != userId {
        return Some(NoSuchAssignment);
      }
      denial := Check(actor, current.value.userId, current.value.role, current.value.scope);
      if denial.None? {
        rows := Without(rows, id);
      }
    }
  }

  // ---------------------------------------------------------------- runs

  datatype Request =
    | AssignRequest(userId: UserId, role: RoleKey, scope: Option<UnitId>)
    | RevokeRequest(userId: UserId, id: AssignmentId)

  /** A request carries its caller's holdings from the moment it arrived; others commit in between. */
  datatype Pending = Arrived(actor: Actor, request: Request) | Approved(actor: Actor, request: Request)

  datatype State = State(rows: seq<Assignment>, nextId: AssignmentId, pending: map<nat, Pending>)

  datatype Step =
    | Arrive(caller: UserId, ticket: nat, request: Request)
    | CheckNow(ticket: nat)
    | WriteNow(ticket: nat)

  function Checks(d: Directory, rows: seq<Assignment>, actor: Actor, request: Request): Option<Denial> {
    match request
    case AssignRequest(userId, role, scope) => AssignChecks(d, rows, actor, userId, role, scope)
    case RevokeRequest(userId, id) => RevokeChecks(d, rows, actor, userId, id)
  }

  function Take(d: Directory, s: State, step: Step): State {
    match step
    case Arrive(caller, ticket, request) =>
      if ticket in s.pending then s
      else s.(pending := s.pending[ticket := Arrived(Actor(caller, HoldingsIn(d.tree, s.rows, caller)), request)])
    case CheckNow(ticket) =>
      if ticket !in s.pending || !s.pending[ticket].Arrived? then s
      else
        var p := s.pending[ticket];
        if Checks(d, s.rows, p.actor, p.request).Some? then s.(pending := s.pending - {ticket})
        else s.(pending := s.pending[ticket := Approved(p.actor, p.request)])
    case WriteNow(ticket) =>
      if ticket !in s.pending || !s.pending[ticket].Approved? then s
      else
        match s.pending[ticket].request
        case AssignRequest(userId, role, scope) =>
          (if InsertDenial(d, s.rows, userId, role, scope).Some? then s.(pending := s.pending - {ticket})
           else State(s.rows + [Assignment(s.nextId, userId, role, scope)], s.nextId + 1, s.pending - {ticket}))
        case RevokeRequest(_, id) => State(Without(s.rows, id), s.nextId, s.pending - {ticket})
  }

  function TakeAll(d: Directory, s: State, steps: seq<Step>): State
    decreases |steps|
  {
    if steps == [] then s else TakeAll(d, Take(d, s, steps[0]), steps[1..])
  }

  /** Somebody holds a grant that lets them do this there. */
  ghost predicate SomebodyMay(d: Directory, rows: seq<Assignment>, action: Action, place: Place) {
    exists r :: r in rows && MayAt(d.tree, Resolved(d.tree, r.role, r.scope), action, place)
  }

  /** Somebody may, or a request under way carries a caller who could when it arrived. */
  ghost predicate Potential(d: Directory, s: State, action: Action, place: Place) {
    SomebodyMay(d, s.rows, action, place) ||
    exists t :: t in s.pending && ActorMay(d.tree, s.pending[t].actor, action, place)
  }

  /** The rank of somebody's grant, or of a caller under way, is at least this. */
  ghost predicate RankReached(s: State, rank: int) {
    || (exists r :: r in s.rows && Rank(r.role).Some? && Rank(r.role).value >= rank)
    || (exists t :: t in s.pending && HoldsRank(s.pending[t].actor.holdings, rank))
  }

  /** An approved assignment lies inside its caller's own authority. */
  ghost predicate ApprovalsInside(d: Directory, s: State) {
    forall t | t in s.pending && s.pending[t].Approved? && s.pending[t].request.AssignRequest? ::
      AssignDenial(d.tree, s.pending[t].actor, s.pending[t].request.role, s.pending[t].request.scope) == None
  }

  lemma CallerWithinTable(d: Directory, rows: seq<Assignment>, caller: UserId, action: Action, place: Place)
    requires ActorMay(d.tree, Actor(caller, HoldingsIn(d.tree, rows, caller)), action, place)
    ensures SomebodyMay(d, rows, action, place)
  {
    var hs := HoldingsIn(d.tree, rows, caller);
    var i :| 0 <= i < |hs| && MayAt(d.tree, hs[i], action, place);
    assert hs[i] in hs;
    var r :| r in rows && r.userId == caller && hs[i] == Resolved(d.tree, r.role, r.scope);
  }

  lemma CallerRankWithinTable(tree: Tree, rows: seq<Assignment>, caller: UserId, rank: int)
    requires HoldsRank(HoldingsIn(tree, rows, caller), rank)
    ensures exists r :: r in rows && Rank(r.role).Some? && Rank(r.role).value >= rank
  {
    var h :| h in HoldingsIn(tree, rows, caller) && Rank(h.role).Some? && Rank(h.role).value >= rank;
    var r :| r in rows && r.userId == caller && h == Resolved(tree, r.role, r.scope);
  }

  lemma TakeKeepsApprovals(d: Directory, s: State, step: Step)
    requires ApprovalsInside(d, s)
    ensures ApprovalsInside(d, Take(d, s, step))
  {
  }

  /** One step creates no authority and no rank that nobody had and no caller carried. */
  lemma TakeAddsNothing(d: Directory, s: State, step: Step, action: Action, place: Place)
    requires ApprovalsInside(d, s) && Potential(d, Take(d, s, step), action, place)
    ensures Potential(d, s, action, place)
  {
    var after := Take(d, s, step);
    if t :| t in after.pending && ActorMay(d.tree, after.pending[t].actor, action, place) {
      if step.Arrive? && t == step.ticket && t !in s.pending {
        CallerWithinTable(d, s.rows, step.caller, action, place);
      } else {
        assert t in s.pending && after.pending[t].actor == s.pending[t].actor;
      }
    } else {
      var r :| r in after.rows && MayAt(d.tree, Resolved(d.tree, r.role, r.scope), action, place);
      if r !in s.rows {
        var p := s.pending[step.ticket];
        assert r.role == p.request.role && r.scope == p.request.scope;
        GrantStaysInsideGranter(d.tree, p.actor, r.role, r.scope, action, place);
      }
    }
  }

  lemma TakeRaisesNobody(d: Directory, s: State, step: Step, rank: int)
    requires ApprovalsInside(d, s) && RankReached(Take(d, s, step), rank)
    ensures RankReached(s, rank)
  {
    var after := Take(d, s, step);
    if t :| t in after.pending && HoldsRank(after.pending[t].actor.holdings, rank) {
      if step.Arrive? && t == step.ticket && t !in s.pending {
        CallerRankWithinTable(d.tree, s.rows, step.caller, rank);
      } else {
        assert t in s.pending && after.pending[t].actor == s.pending[t].actor;
      }
    } else {
      var r :| r in after.rows && Rank(r.role).Some? && Rank(r.role).value >= rank;
      if r !in s.rows {
        var p := s.pending[step.ticket];
        GrantStaysBelowGranter(d.tree, p.actor, r.role, r.scope, rank);
      }
    }
  }

  lemma {:induction false} RunAddsNothing(d: Directory, s: State, steps: seq<Step>, action: Action, place: Place)
    requires ApprovalsInside(d, s) && Potential(d, TakeAll(d, s, steps), action, place)
    ensures Potential(d, s, action, place)
    decreases |steps|
  {
    if steps != [] {
      TakeKeepsApprovals(d, s, steps[0]);
      RunAddsNothing(d, Take(d, s, steps[0]), steps[1..], action, place);
      TakeAddsNothing(d, s, steps[0], action, place);
    }
  }

  lemma {:induction false} RunRaisesNobody(d: Directory, s: State, steps: seq<Step>, rank: int)
    requires ApprovalsInside(d, s) && RankReached(TakeAll(d, s, steps), rank)
    ensures RankReached(s, rank)
    decreases |steps|
  {
    if steps != [] {
      TakeKeepsApprovals(d, s, steps[0]);
      RunRaisesNobody(d, Take(d, s, steps[0]), steps[1..], rank);
      TakeRaisesNobody(d, s, steps[0], rank);
    }
  }

  /** No run of assign and revoke requests, however they interleave, lets anybody do anything anywhere
      that nobody could do there when it began. */
  lemma DelegationCreatesNoAuthority(
    d: Directory, rows: seq<Assignment>, nextId: AssignmentId, steps: seq<Step>, action: Action, place: Place)
    ensures SomebodyMay(d, TakeAll(d, State(rows, nextId, map[]), steps).rows, action, place) ==>
      SomebodyMay(d, rows, action, place)
  {
    var start := State(rows, nextId, map[]);
    if SomebodyMay(d, TakeAll(d, start, steps).rows, action, place) {
      RunAddsNothing(d, start, steps, action, place);
    }
  }

  /** Nor does any run raise the highest rank anybody has. */
  lemma DelegationRaisesNoRank(d: Directory, rows: seq<Assignment>, nextId: AssignmentId, steps: seq<Step>, rank: int)
    ensures (exists r :: r in TakeAll(d, State(rows, nextId, map[]), steps).rows && Rank(r.role).Some? && Rank(r.role).value >= rank)
      ==> exists r :: r in rows && Rank(r.role).Some? && Rank(r.role).value >= rank
  {
    var start := State(rows, nextId, map[]);
    if RankReached(TakeAll(d, start, steps), rank) {
      RunRaisesNobody(d, start, steps, rank);
    }
  }
}
