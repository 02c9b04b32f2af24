/**
 * Delegation moment by moment. A request is permitted on what its caller held when it arrived, so a grant
 * can be written after the authority it came from was revoked: when exactly a step adds authority to what
 * is there at that moment.
 */
module DelegationMoments {
  import opened Common
  import opened Evaluator
  import opened Delegation

  // ---------------------------------------------------------------- one step

  /** Whatever somebody may do after, somebody might do before. */
  ghost predicate Within(d: Directory, after: seq<Assignment>, before: seq<Assignment>) {
    forall action, place | SomebodyMay(d, after, action, place) :: SomebodyMay(d, before, action, place)
  }

  /** The step is the write of an approved assignment, and the insert goes through. */
  predicate Inserts(d: Directory, s: State, step: Step) {
    && step.WriteNow? && step.ticket in s.pending && s.pending[step.ticket].Approved?
    && s.pending[step.ticket].request.AssignRequest?
    && var request := s.pending[step.ticket].request;
       InsertDenial(d, s.rows, request.userId, request.role, request.scope) == None
  }

  /** For each action of the role, somebody may do it at the scope of the grant. */
  ghost predicate Covered(d: Directory, rows: seq<Assignment>, role: RoleKey, scope: Option<UnitId>) {
    forall action | action in Permissions(role) :: SomebodyMay(d, rows, action, scope)
  }

  ghost predicate CoveredNow(d: Directory, s: State, step: Step) {
    Inserts(d, s, step) ==>
      var request := s.pending[step.ticket].request;
      Covered(d, s.rows, request.role, request.scope)
  }

  /** Whoever may do something at the scope of a grant may do it wherever the grant reaches. */
  lemma ScopeStandsForAll(tree: Tree, role: RoleKey, scope: Option<UnitId>, h: Holding, action: Action, place: Place)
    requires MayAt(tree, Resolved(tree, role, scope), action, place) && MayAt(tree, h, action, scope)
    ensures MayAt(tree, h, action, place)
  {
    if scope.Some? && h.scope.Some? {
      BelowIsTransitive(tree[place.value], tree[scope.value], h.scopePath.value);
    }
  }

  lemma GrantReachesItsScope(tree: Tree, role: RoleKey, scope: Option<UnitId>, action: Action)
    requires action in Permissions(role) && (scope.Some? ==> scope.value in tree)
    ensures MayAt(tree, Resolved(tree, role, scope), action, scope)
  {
    if scope.Some? {
      SubtreeIsLabelPrefix(tree[scope.value], tree[scope.value]);
    }
  }

  /** A step adds nothing to what somebody may do at present exactly when, if it inserts a grant, each
      action of the granted role is covered at the scope by the grants that are still there. */
  lemma StepAddsNothingIff(d: Directory, s: State, step: Step)
    ensures Within(d, Take(d, s, step).rows, s.rows) <==> CoveredNow(d, s, step)
  {
    var after := Take(d, s, step).rows;
    if Inserts(d, s, step) {
      var request := s.pending[step.ticket].request;
      InsertAddsNothingIff(d, s.rows, Assignment(s.nextId, request.userId, request.role, request.scope));
    } else {
      assert forall r :: r in after ==> r in s.rows;
    }
  }

  lemma InsertAddsNothingIff(d: Directory, rows: seq<Assignment>, row: Assignment)
    requires row.scope.Some? ==> row.scope.value in d.tree
    ensures Within(d, rows + [row], rows) <==> Covered(d, rows, row.role, row.scope)
  {
    if Covered(d, rows, row.role, row.scope) {
      forall action, place | SomebodyMay(d, rows + [row], action, place) ensures SomebodyMay(d, rows, action, place) {
        var r :| r in rows + [row] && MayAt(d.tree, Resolved(d.tree, r.role, r.scope), action, place);
        if r !in rows {
          assert SomebodyMay(d, rows, action, row.scope);
          var cover :| cover in rows && MayAt(d.tree, Resolved(d.tree, cover.role, cover.scope), action, row.scope);
          ScopeStandsForAll(d.tree, row.role, row.scope, Resolved(d.tree, cover.role, cover.scope), action, place);
        }
      }
    }
    if Within(d, rows + [row], rows) {
      forall action | action in Permissions(row.role) ensures SomebodyMay(d, rows, action, row.scope) {
        GrantReachesItsScope(d.tree, row.role, row.scope, action);
        assert row in rows + [row];
        assert SomebodyMay(d, rows + [row], action, row.scope);
      }
    }
  }

  /** The table after the first `i` steps. */
  function RowsAt(d: Directory, s: State, steps: seq<Step>, i: nat): seq<Assignment>
    requires i <= |steps|
  {
    TakeAll(d, s, steps[..i]).rows
  }

  lemma {:induction false} TakeOneMore(d: Directory, s: State, steps: seq<Step>, step: Step)
    ensures TakeAll(d, s, steps + [step]) == Take(d, TakeAll(d, s, steps), step)
    decreases |steps|
  {
    if steps == [] {
      assert steps + [step] == [step] && [step][1..] == [];
    } else {
      assert (steps + [step])[1..] == steps[1..] + [step];
      TakeOneMore(d, Take(d, s, steps[0]), steps[1..], step);
    }
  }

  lemma StepBetween(d: Directory, s: State, steps: seq<Step>, i: nat)
    requires i < |steps|
    ensures TakeAll(d, s, steps[..i + 1]) == Take(d, TakeAll(d, s, steps[..i]), steps[i])
  {
    assert steps[..i + 1] == steps[..i] + [steps[i]];
    TakeOneMore(d, s, steps[..i], steps[i]);
  }

  lemma {:induction false} WithinFromSteps(d: Directory, s: State, steps: seq<Step>, i: nat, j: nat)
    requires i <= j <= |steps|
    requires forall k | 0 <= k < |steps| :: CoveredNow(d, TakeAll(d, s, steps[..k]), steps[k])
    ensures Within(d, RowsAt(d, s, steps, j), RowsAt(d, s, steps, i))
    decreases j
  {
    if i < j {
      WithinFromSteps(d, s, steps, i, j - 1);
      StepBetween(d, s, steps, j - 1);
      StepAddsNothingIff(d, TakeAll(d, s, steps[..j - 1]), steps[j - 1]);
    }
  }

  /** The union of all authority grows at no moment of a run exactly when every grant was still covered
      when it was written. */
  lemma UnionNeverGrowsIff(d: Directory, s: State, steps: seq<Step>)
    ensures (forall i: nat, j: nat | i <= j <= |steps| :: Within(d, RowsAt(d, s, steps, j), RowsAt(d, s, steps, i)))
      <==> (forall k | 0 <= k < |steps| :: CoveredNow(d, TakeAll(d, s, steps[..k]), steps[k]))
  {
    if forall k | 0 <= k < |steps| :: CoveredNow(d, TakeAll(d, s, steps[..k]), steps[k]) {
      forall i: nat, j: nat | i <= j <= |steps| ensures Within(d, RowsAt(d, s, steps, j), RowsAt(d, s, steps, i)) {
        WithinFromSteps(d, s, steps, i, j);
      }
    }
    if forall i: nat, j: nat | i <= j <= |steps| :: Within(d, RowsAt(d, s, steps, j), RowsAt(d, s, steps, i)) {
      forall k | 0 <= k < |steps| ensures CoveredNow(d, TakeAll(d, s, steps[..k]), steps[k]) {
        assert Within(d, RowsAt(d, s, steps, k + 1), RowsAt(d, s, steps, k));
        StepBetween(d, s, steps, k);
        StepAddsNothingIff(d, TakeAll(d, s, steps[..k]), steps[k]);
      }
    }
  }

  // ---------------------------------------------------------------- the granter at that moment

  function Caller(d: Directory, rows: seq<Assignment>, userId: UserId): Actor {
    Actor(userId, HoldingsIn(d.tree, rows, userId))
  }

  /** All that a grant lets its holder do, this user may do by the present table. */
  ghost predicate InsideOf(d: Directory, rows: seq<Assignment>, caller: UserId, role: RoleKey, scope: Option<UnitId>) {
    forall action, place | MayAt(d.tree, Resolved(d.tree, role, scope), action, place) ::
      ActorMay(d.tree, Caller(d, rows, caller), action, place)
  }

  /** A row of the caller's that lets them make this grant: the role itself or super admin, at a scope
      that covers the grant's. */
  predicate IsCover(d: Directory, caller: UserId, role: RoleKey, scope: Option<UnitId>, row: Assignment) {
    && row.userId == caller && (row.role == role || row.role == SUPER_ADMIN)
    && (row.scope.None?
        || (scope.Some? && scope.value in d.tree
            && Reaches(Resolved(d.tree, row.role, row.scope), d.tree[scope.value])))
  }

  /** The scope check passes exactly when the caller has a covering row. */
  lemma PermittedIffCovered(d: Directory, rows: seq<Assignment>, caller: UserId, role: RoleKey, scope: Option<UnitId>)
    ensures AssignDenial(d.tree, Caller(d, rows, caller), role, scope) == None <==>
      exists row :: row in rows && IsCover(d, caller, role, scope, row)
  {
    var actor := Caller(d, rows, caller);
    var holdings := HoldingsOf(actor.holdings, role);
    if AssignDenial(d.tree, actor, role, scope) == None {
      var h := CoveringHolding(d, actor, role, scope);
      var row :| row in rows && row.userId == caller && h == Resolved(d.tree, row.role, row.scope);
      assert IsCover(d, caller, role, scope, row);
    }
    if row :| row in rows && IsCover(d, caller, role, scope, row) {
      var h := Resolved(d.tree, row.role, row.scope);
      assert h in holdings;
      var i :| 0 <= i < |holdings| && holdings[i] == h;
      if !AnyGlobal(holdings) {
        UnderAnyIffReached(holdings, d.tree[scope.value]);
      }
    }
  }

  lemma CoveringHolding(d: Directory, actor: Actor, role: RoleKey, scope: Option<UnitId>) returns (h: Holding)
    requires AssignDenial(d.tree, actor, role, scope) == None
    ensures h in actor.holdings && (h.role == role || h.role == SUPER_ADMIN)
    ensures h.scope.None? || (scope.Some? && scope.value in d.tree && Reaches(h, d.tree[scope.value]))
  {
    var holdings := HoldingsOf(actor.holdings, role);
    if AnyGlobal(holdings) {
      var i :| 0 <= i < |holdings| && holdings[i].scope.None?;
      h := holdings[i];
    } else {
      UnderAnyIffReached(holdings, d.tree[scope.value]);
      h :| h in holdings && Reaches(h, d.tree[scope.value]);
    }
  }

  /** With a covering row present the grant lies inside its granter's authority. */
  lemma CoverKeepsInside(
    d: Directory, rows: seq<Assignment>, caller: UserId, role: RoleKey, scope: Option<UnitId>, cover: Assignment)
    requires cover in rows && IsCover(d, caller, role, scope, cover)
    ensures InsideOf(d, rows, caller, role, scope)
  {
    PermittedIffCovered(d, rows, caller, role, scope);
    forall action, place | MayAt(d.tree, Resolved(d.tree, role, scope), action, place)
      ensures ActorMay(d.tree, Caller(d, rows, caller), action, place)
    {
      GrantStaysInsideGranter(d.tree, Caller(d, rows, caller), role, scope, action, place);
    }
  }

  lemma InsideIsCovered(d: Directory, rows: seq<Assignment>, caller: UserId, role: RoleKey, scope: Option<UnitId>)
    requires InsideOf(d, rows, caller, role, scope) && (scope.Some? ==> scope.value in d.tree)
    ensures Covered(d, rows, role, scope)
  {
    forall action | action in Permissions(role) ensures SomebodyMay(d, rows, action, scope) {
      GrantReachesItsScope(d.tree, role, scope, action);
      CallerWithinTable(d, rows, caller, action, scope);
    }
  }

  /** A grant of super admin lies inside its granter's authority exactly when the granter has a covering
      row at that moment. */
  lemma SuperAdminInsideIffCover(d: Directory, rows: seq<Assignment>, caller: UserId, scope: Option<UnitId>)
    requires scope.Some? ==> scope.value in d.tree
    ensures InsideOf(d, rows, caller, SUPER_ADMIN, scope) <==>
      exists row :: row in rows && IsCover(d, caller, SUPER_ADMIN, scope, row)
  {
    if row :| row in rows && IsCover(d, caller, SUPER_ADMIN, scope, row) {
      CoverKeepsInside(d, rows, caller, SUPER_ADMIN, scope, row);
    }
    if InsideOf(d, rows, caller, SUPER_ADMIN, scope) {
      var hs := Caller(d, rows, caller).holdings;
      assert ASSIGN in Permissions(SUPER_ADMIN);
      GrantReachesItsScope(d.tree, SUPER_ADMIN, scope, ASSIGN);
      var i :| 0 <= i < |hs| && MayAt(d.tree, hs[i], ASSIGN, scope);
      AssignersAreSuperAdmins(hs[i]);
      assert hs[i] in hs;
      var row :| row in rows && row.userId == caller && hs[i] == Resolved(d.tree, row.role, row.scope);
      assert IsCover(d, caller, SUPER_ADMIN, scope, row);
    }
  }

  // ---------------------------------------------------------------- between arrival and write

  predicate Revokes(s: State, step: Step, id: AssignmentId) {
    && step.WriteNow? && step.ticket in s.pending && s.pending[step.ticket].Approved?
    && s.pending[step.ticket].request.RevokeRequest? && s.pending[step.ticket].request.id == id
  }

  predicate RevokedIn(d: Directory, s: State, steps: seq<Step>, id: AssignmentId)
    decreases |steps|
  {
    steps != [] && (Revokes(s, steps[0], id) || RevokedIn(d, Take(d, s, steps[0]), steps[1..], id))
  }

  /** Ids are not handed out twice. */
  ghost predicate IdsSpent(s: State) {
    forall r | r in s.rows :: r.id < s.nextId
  }

  lemma {:induction false} GoneStaysGone(d: Directory, s: State, steps: seq<Step>, row: Assignment)
    requires row !in s.rows && row.id < s.nextId
    ensures row !in TakeAll(d, s, steps).rows
    decreases |steps|
  {
    if steps != [] {
      GoneStaysGone(d, Take(d, s, steps[0]), steps[1..], row);
    }
  }

  /** A grant is there at the end of a run exactly when no revoke of it was written. */
  lemma {:induction false} StaysIffNotRevoked(d: Directory, s: State, steps: seq<Step>, row: Assignment)
    requires row in s.rows && IdsSpent(s)
    ensures row in TakeAll(d, s, steps).rows <==> !RevokedIn(d, s, steps, row.id)
    decreases |steps|
  {
    if steps != [] {
      var next := Take(d, s, steps[0]);
      if Revokes(s, steps[0], row.id) {
        GoneStaysGone(d, next, steps[1..], row);
      } else {
        StaysIffNotRevoked(d, next, steps[1..], row);
      }
    }
  }

  /** A request is permitted on what its caller held when it arrived. If the row that covered it is not
      revoked until the grant is written, the grant lies inside what its granter may do at that moment,
      and nobody may do anything that nobody could the moment before. */
  lemma UnrevokedCoverKeepsGrantInside(
    d: Directory, s: State, caller: UserId, ticket: nat, request: Request, between: seq<Step>, cover: Assignment)
    requires IdsSpent(s) && ticket !in s.pending && request.AssignRequest?
    requires cover in s.rows && IsCover(d, caller, request.role, request.scope, cover)
    requires !RevokedIn(d, Take(d, s, Arrive(caller, ticket, request)), between, cover.id)
    ensures var now := TakeAll(d, Take(d, s, Arrive(caller, ticket, request)), between);
      && InsideOf(d, now.rows, caller, request.role, request.scope)
      && (ticket in now.pending && now.pending[ticket].request == request ==>
            Within(d, Take(d, now, WriteNow(ticket)).rows, now.rows))
  {
    var arrived := Take(d, s, Arrive(caller, ticket, request));
    var now := TakeAll(d, arrived, between);
    StaysIffNotRevoked(d, arrived, between, cover);
    CoverKeepsInside(d, now.rows, caller, request.role, request.scope, cover);
    StepAddsNothingIff(d, now, WriteNow(ticket));
    if Inserts(d, now, WriteNow(ticket)) && now.pending[ticket].request == request {
      InsideIsCovered(d, now.rows, caller, request.role, request.scope);
    }
  }

  // ---------------------------------------------------------------- no grant twice

  /** The insert goes through exactly when the user and the org unit exist and the user does not hold this very
      role at this very scope. */
  lemma InsertMeaning(d: Directory, rows: seq<Assignment>, userId: UserId, role: RoleKey, scope: Option<UnitId>)
    ensures InsertDenial(d, rows, userId, role, scope) == None <==>
      && userId in d.users && (scope.Some? ==> scope.value in d.tree)
      && forall r | r in rows :: !(r.userId == userId && r.role == role && r.scope == scope)
    ensures userId !in d.users <==> InsertDenial(d, rows, userId, role, scope) == Some(NoSuchUser)
    ensures userId in d.users && scope.Some? && scope.value !in d.tree <==>
      InsertDenial(d, rows, userId, role, scope) == Some(NoSuchUnit)
  {
    forall r | r in rows && r.userId == userId && r.role == role && r.scope == scope
      ensures Delegation.Held(rows, userId, role, scope)
    {
      var i :| 0 <= i < |rows| && rows[i] == r;
    }
  }

  /** No two rows give one user one role at one scope. */
  ghost predicate NoneTwice(rows: seq<Assignment>) {
    forall a, b | a in rows && b in rows && a.userId == b.userId && a.role == b.role && a.scope == b.scope :: a == b
  }

  /** No run gives anybody one role at one scope twice. */
  lemma {:induction false} NothingIsGrantedTwice(d: Directory, s: State, steps: seq<Step>)
    requires NoneTwice(s.rows)
    ensures NoneTwice(TakeAll(d, s, steps).rows)
    decreases |steps|
  {
    if steps != [] {
      StepGrantsOnce(d, s, steps[0]);
      NothingIsGrantedTwice(d, Take(d, s, steps[0]), steps[1..]);
    }
  }

  lemma StepGrantsOnce(d: Directory, s: State, step: Step)
    requires NoneTwice(s.rows)
    ensures NoneTwice(Take(d, s, step).rows)
  {
    if Inserts(d, s, step) {
      var request := s.pending[step.ticket].request;
      InsertMeaning(d, s.rows, request.userId, request.role, request.scope);
    }
  }

  // ---------------------------------------------------------------- a cover revoked in between

  const OFFICE := Directory(map["unit" := "unit"], map["alice" := "unit", "bob" := "unit"])
  const ALICES := Assignment(0, "alice", SUPER_ADMIN, None)

  function Overtaken(): seq<Step> {
    [Arrive("alice", 0, AssignRequest("bob", SUPER_ADMIN, None)), Arrive("alice", 1, RevokeRequest("alice", 0)),
     CheckNow(0), CheckNow(1), WriteNow(1)]
  }

  lemma GlobalIsFound(holdings: seq<Holding>, h: Holding)
    requires h in holdings && h.scope.None?
    ensures AnyGlobal(holdings)
  {
    var i :| 0 <= i < |holdings| && holdings[i] == h;
  }

  lemma OneGlobalAdminMay(userId: UserId)
    requires userId in OFFICE.users
    ensures AssignChecks(OFFICE, [ALICES], Caller(OFFICE, [ALICES], "alice"), userId, SUPER_ADMIN, None) == None
  {
    var actor := Caller(OFFICE, [ALICES], "alice");
    var h := Holding(SUPER_ADMIN, None, None);
    assert HoldingsIn(OFFICE.tree, [ALICES], "alice") == [h];
    assert Grants(h, ASSIGN);
    assert h in GrantingAssignments(actor, ASSIGN) && h in HoldingsOf(actor.holdings, SUPER_ADMIN);
    GlobalIsFound(GrantingAssignments(actor, ASSIGN), h);
    GlobalIsFound(HoldingsOf(actor.holdings, SUPER_ADMIN), h);
    assert RolesIn([ALICES], userId) == if userId == "alice" then [SUPER_ADMIN] else [];
    RankCheckFollows(OFFICE.tree, actor, "unit", RolesIn([ALICES], userId));
  }

  lemma ApprovesUnlessDenied(d: Directory, s: State, ticket: nat)
    requires ticket in s.pending && s.pending[ticket].Arrived?
    requires Checks(d, s.rows, s.pending[ticket].actor, s.pending[ticket].request) == None
    ensures Take(d, s, CheckNow(ticket))
         == s.(pending := s.pending[ticket := Approved(s.pending[ticket].actor, s.pending[ticket].request)])
  {
  }

  /** Both requests of the run, arrived. */
  function BothArrived(): State {
    var caller := Caller(OFFICE, [ALICES], "alice");
    State([ALICES], 1, map[0 := Arrived(caller, AssignRequest("bob", SUPER_ADMIN, None)),
                           1 := Arrived(caller, RevokeRequest("alice", 0))])
  }

  /** Both requests of the run, approved. */
  function BothApproved(): State {
    var caller := Caller(OFFICE, [ALICES], "alice");
    State([ALICES], 1, map[0 := Approved(caller, AssignRequest("bob", SUPER_ADMIN, None)),
                           1 := Approved(caller, RevokeRequest("alice", 0))])
  }

  lemma OvertakenArrives()
    ensures TakeAll(OFFICE, State([ALICES], 1, map[]), Overtaken()[..2]) == BothArrived()
  {
    var s, steps := State([ALICES], 1, map[]), Overtaken();
    assert steps[..0] == [];
    StepBetween(OFFICE, s, steps, 0);
    StepBetween(OFFICE, s, steps, 1);
  }

  lemma BothAreChecked()
    ensures Take(OFFICE, Take(OFFICE, BothArrived(), CheckNow(0)), CheckNow(1)) == BothApproved()
  {
    OneGlobalAdminMay("bob");
    OneGlobalAdminMay("alice");
    ApprovesUnlessDenied(OFFICE, BothArrived(), 0);
    ApprovesUnlessDenied(OFFICE, Take(OFFICE, BothArrived(), CheckNow(0)), 1);
  }

  lemma OvertakenIsApproved()
    ensures TakeAll(OFFICE, State([ALICES], 1, map[]), Overtaken()[..4]) == BothApproved()
  {
    var s, steps := State([ALICES], 1, map[]), Overtaken();
    OvertakenArrives();
    BothAreChecked();
    assert steps[2] == CheckNow(0) && steps[3] == CheckNow(1);
    StepBetween(OFFICE, s, steps, 2);
    StepBetween(OFFICE, s, steps, 3);
  }

  lemma OvertakenRevokes()
    ensures TakeAll(OFFICE, State([ALICES], 1, map[]), Overtaken()).rows == []
    ensures TakeAll(OFFICE, State([ALICES], 1, map[]), Overtaken()) == Take(OFFICE, BothApproved(), WriteNow(1))
  {
    var steps := Overtaken();
    assert steps[..5] == steps;
    OvertakenIsApproved();
    StepBetween(OFFICE, State([ALICES], 1, map[]), steps, 4);
    assert Without([ALICES], 0) == [];
  }

  /** The only super admin asks to make somebody else one and, in a second request, to be one no longer.
      Both are checked, then the second is written: nobody may assign roles any more. Then the first is
      written, and somebody may again. */
  lemma RevokedCoverGrantsAnew()
    ensures var s := TakeAll(OFFICE, State([ALICES], 1, map[]), Overtaken());
      && !SomebodyMay(OFFICE, s.rows, ASSIGN, None)
      && SomebodyMay(OFFICE, Take(OFFICE, s, WriteNow(0)).rows, ASSIGN, None)
  {
    OvertakenRevokes();
    var s := Take(OFFICE, BothApproved(), WriteNow(1));
    var row := Assignment(1, "bob", SUPER_ADMIN, None);
    assert s.pending[0] == BothApproved().pending[0];
    assert Take(OFFICE, s, WriteNow(0)).rows == [] + [row];
    assert ASSIGN in Permissions(SUPER_ADMIN);
    assert row in [] + [row];
    GrantReachesItsScope(OFFICE.tree, SUPER_ADMIN, None, ASSIGN);
  }
}
