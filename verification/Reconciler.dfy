/**
 * The reconciler: it writes the difference between the entitlements a user's roles justify and the
 * membership and account rows the user has, and it never touches a row granted by hand.
 */
module Reconciler {
  import opened Common
  import opened Evaluator

  datatype Source = Manual | BusinessRole

  datatype Row = Row(source: Source, organization: Option<string>, grantedBy: Option<UserId>, grantedAt: int)

  /** One user's rows of `group_user_members` and `user_target_accounts`. */
  datatype PersonRows = PersonRows(groups: map<GroupId, Row>, targets: map<Target, Row>)

  datatype Outcome =
    | Applied(groupsAdded: set<GroupId>, groupsRemoved: set<GroupId>,
              targetsAdded: set<Target>, targetsRemoved: set<Target>)
    | Refused(roleId: RoleId, roleName: string, reason: Reason)
    | NotFound(id: string)

  datatype Event =
    | MembershipChanged(groupId: GroupId, userId: UserId)
    | AccountRevoked(userId: UserId, target: Target)

  datatype Audit = ReconcileAudit(
    actor: Option<UserId>, userId: UserId,
    groupsBefore: set<GroupId>, targetsBefore: set<Target>, groupsAfter: set<GroupId>, targetsAfter: set<Target>)

  datatype Person = Person(user: User, organization: string)

  /** What reconciliation only reads: people, the enabled roles of each organization, existing groups. */
  datatype World = World(
    people: map<UserId, Person>, enabledRoles: map<string, seq<Role>>, groupOrganization: map<GroupId, string>)

  function RolesFor(w: World, organization: string): seq<Role> {
    if organization in w.enabledRoles then w.enabledRoles[organization] else []
  }

  function RowsIn(tables: map<UserId, PersonRows>, userId: UserId): PersonRows {
    if userId in tables then tables[userId] else PersonRows(map[], map[])
  }

  // ---------------------------------------------------------------- the difference, for one table

  function ToAdd<K>(rows: map<K, Row>, desired: set<K>): set<K> {
    desired - rows.Keys
  }

  function ToRemove<K>(rows: map<K, Row>, desired: set<K>): set<K> {
    set k | k in rows && rows[k].source.BusinessRole? && k !in desired
  }

  /** INSERT ... ON CONFLICT DO NOTHING. */
  function InsertMissing<K>(rows: map<K, Row>, added: map<K, Row>): map<K, Row> {
    added + rows
  }

  /** DELETE ... WHERE key IN keys AND grant_source = 'business_role'. */
  function DeleteDerived<K>(rows: map<K, Row>, keys: set<K>): map<K, Row> {
    map k | k in rows && !(k in keys && rows[k].source.BusinessRole?) :: rows[k]
  }

  /** One table after an undisturbed pass. */
  function Reconciled<K>(rows: map<K, Row>, desired: set<K>, added: map<K, Row>): map<K, Row> {
    DeleteDerived(InsertMissing(rows, added), ToRemove(rows, desired))
  }

  /** After a pass the user has exactly the rows granted by hand and the rows they should have; every
      row that was already there and stays is untouched. */
  lemma PassMeetsDesire<K>(rows: map<K, Row>, desired: set<K>, added: map<K, Row>)
    requires added.Keys == ToAdd(rows, desired)
    ensures Reconciled(rows, desired, added).Keys == (set k | k in rows && rows[k].source.Manual?) + desired
    ensures forall k | k in Reconciled(rows, desired, added) ::
      Reconciled(rows, desired, added)[k] == if k in rows then rows[k] else added[k]
  {
  }

  /** A second pass with the same desire has nothing to add and nothing to remove. */
  lemma SecondPassWritesNothing<K>(rows: map<K, Row>, desired: set<K>, added: map<K, Row>)
    requires added.Keys == ToAdd(rows, desired)
    ensures ToAdd(Reconciled(rows, desired, added), desired) == {}
    ensures ToRemove(Reconciled(rows, desired, added), desired) == {}
  {
    PassMeetsDesire(rows, desired, added);
  }

  lemma NothingToDo<K>(rows: map<K, Row>, desired: set<K>)
    requires ToAdd(rows, desired) == {} && ToRemove(rows, desired) == {}
    ensures Reconciled(rows, desired, map[]) == rows
  {
  }

  // ---------------------------------------------------------------- hand grants in between

  /** One statement on a user's rows: the reconciler's two, or a hand grant or removal that another
      transaction commits in between. */
  datatype Statement<K> =
    | Insert(added: map<K, Row>)
    | Delete(keys: set<K>)
    | HandGrant(key: K, row: Row)
    | HandRemove(key: K)

  function Execute<K>(rows: map<K, Row>, s: Statement<K>): map<K, Row> {
    match s
    case Insert(added) => InsertMissing(rows, added)
    case Delete(keys) => DeleteDerived(rows, keys)
    case HandGrant(key, row) => InsertMissing(rows, map[key := row])
    case HandRemove(key) => rows - {key}
  }

  function ExecuteAll<K>(rows: map<K, Row>, statements: seq<Statement<K>>): map<K, Row>
    decreases |statements|
  {
    if statements == [] then rows else ExecuteAll(Execute(rows, statements[0]), statements[1..])
  }

  /** Whatever the reconciler decided to add and remove, and whenever hand edits land between its
      read and its writes, a hand-granted row stays as it is until somebody removes it by hand. */
  lemma {:induction false} ManualRowsSurvive<K>(rows: map<K, Row>, statements: seq<Statement<K>>, key: K)
    requires key in rows && rows[key].source.Manual?
    requires HandRemove(key) !in statements
    ensures key in ExecuteAll(rows, statements) && ExecuteAll(rows, statements)[key] == rows[key]
    decreases |statements|
  {
    if statements != [] {
      assert statements[0] in statements;
      ManualRowsSurvive(Execute(rows, statements[0]), statements[1..], key);
    }
  }

  /** A row the reconciler removes was derived from a role when the removal ran. */
  lemma RemovedRowsWereDerived<K>(rows: map<K, Row>, keys: set<K>, key: K)
    ensures key in rows && key !in Execute(rows, Delete(keys)) ==> rows[key].source.BusinessRole? && key in keys
    ensures key in Execute(rows, Delete(keys)) ==> key in rows && Execute(rows, Delete(keys))[key] == rows[key]
  {
  }

  // ---------------------------------------------------------------- one pass over one user

  function NewGroupRows(w: World, ids: set<GroupId>, actor: Option<UserId>, now: int): map<GroupId, Row>
    requires ids <= w.groupOrganization.Keys
  {
    map g | g in ids :: Row(BusinessRole, Some(w.groupOrganization[g]), actor, now)
  }

  function NewTargetRows(targets: set<Target>, actor: Option<UserId>, now: int): map<Target, Row> {
    map t | t in targets :: Row(BusinessRole, None, actor, now)
  }

  datatype Pass = Pass(outcome: Outcome, rows: PersonRows)

  predicate WritesSomething(o: Outcome) {
    o.Applied? && (o.groupsAdded != {} || o.groupsRemoved != {} || o.targetsAdded != {} || o.targetsRemoved != {})
  }

  /** What one pass answers and leaves behind, as a function of the user's rows. The group whose row
      has gone is whichever missing one the insert meets first. */
  ghost predicate IsPass(
    w: World, userId: UserId, actor: Option<UserId>, now: int, before: PersonRows, outcome: Outcome, after: PersonRows)
  {
    if userId !in w.people then outcome == NotFound(userId) && after == before
    else
      var user := w.people[userId].user;
      match EvaluationOf(user, RolesFor(w, w.people[userId].organization), now)
      case Unevaluable(roleId, roleName, reason) => outcome == Refused(roleId, roleName, reason) && after == before
      case Evaluable(groups, targets, _) =>
        IsDiff(w, actor, now, groups, targets, before, outcome, after)
  }

  ghost predicate IsDiff(
    w: World, actor: Option<UserId>, now: int, groups: set<GroupId>, targets: set<Target>,
    before: PersonRows, outcome: Outcome, after: PersonRows)
  {
    var groupsToAdd, targetsToAdd := ToAdd(before.groups, groups), ToAdd(before.targets, targets);
    if groupsToAdd <= w.groupOrganization.Keys then
      && outcome == Applied(groupsToAdd, ToRemove(before.groups, groups), targetsToAdd, ToRemove(before.targets, targets))
      && after.groups == Reconciled(before.groups, groups, NewGroupRows(w, groupsToAdd, actor, now))
      && after.targets == Reconciled(before.targets, targets, NewTargetRows(targetsToAdd, actor, now))
    else
      outcome.NotFound? && outcome.id in groupsToAdd && outcome.id !in w.groupOrganization && after == before
  }

  /** One audit row for a pass that wrote something, with both sets in full before and after. */
  function AuditsOf(
    userId: UserId, actor: Option<UserId>, o: Outcome, before: PersonRows, after: PersonRows): seq<Audit>
  {
    if !WritesSomething(o) then [] else
      [ReconcileAudit(actor, userId, before.groups.Keys, before.targets.Keys, after.groups.Keys, after.targets.Keys)]
  }

  lemma NoChangeIsDiff(
    w: World, actor: Option<UserId>, now: int, groups: set<GroupId>, targets: set<Target>, before: PersonRows)
    requires ToAdd(before.groups, groups) == {} && ToRemove(before.groups, groups) == {}
    requires ToAdd(before.targets, targets) == {} && ToRemove(before.targets, targets) == {}
    ensures IsDiff(w, actor, now, groups, targets, before, Applied({}, {}, {}, {}), before)
  {
    NothingToDo(before.groups, groups);
    NothingToDo(before.targets, targets);
    assert NewGroupRows(w, {}, actor, now) == map[];
    assert NewTargetRows({}, actor, now) == map[];
  }

  /** The diff of one person against their desired entitlements, in the order the writes are made. */
  method WriteDiff(
    w: World, actor: Option<UserId>, now: int, groups: set<GroupId>, targets: set<Target>, before: PersonRows)
    returns (outcome: Outcome, after: PersonRows)
    ensures IsDiff(w, actor, now, groups, targets, before, outcome, after)
    ensures !WritesSomething(outcome) ==> after == before
    ensures outcome.Applied? ==>
      && after.groups.Keys == before.groups.Keys + outcome.groupsAdded - outcome.groupsRemoved
      && after.targets.Keys == before.targets.Keys + outcome.targetsAdded - outcome.targetsRemoved
  {
    var groupsToAdd, groupsToRemove := ToAdd(before.groups, groups), ToRemove(before.groups, groups);
    var targetsToAdd, targetsToRemove := ToAdd(before.targets, targets), ToRemove(before.targets, targets);
    outcome, after := Applied(groupsToAdd, groupsToRemove, targetsToAdd, targetsToRemove), before;
    if !WritesSomething(outcome) {
      NoChangeIsDiff(w, actor, now, groups, targets, before);
      return;
    }
    if !(groupsToAdd <= w.groupOrganization.Keys) {
      var missing :| missing in groupsToAdd && missing !in w.groupOrganization;
      outcome := NotFound(missing);
      return;
    }
    var groupRows := WriteTable(before.groups, groups, NewGroupRows(w, groupsToAdd, actor, now));
    var targetRows := WriteTable(before.targets, targets, NewTargetRows(targetsToAdd, actor, now));
    after := PersonRows(groupRows, targetRows);
  }

  /** The two statements on one table: the rows to add, then the rows to remove. */
  method WriteTable<K>(before: map<K, Row>, desired: set<K>, added: map<K, Row>) returns (after: map<K, Row>)
    requires added.Keys == ToAdd(before, desired)
    ensures after == Reconciled(before, desired, added)
    ensures after.Keys == before.Keys + ToAdd(before, desired) - ToRemove(before, desired)
  {
    after := InsertMissing(before, added);
    after := DeleteDerived(after, ToRemove(before, desired));
    PassMeetsDesire(before, desired, added);
  }

  method PassOver(w: World, userId: UserId, actor: Option<UserId>, now: int, before: PersonRows)
    returns (outcome: Outcome, after: PersonRows)
    ensures IsPass(w, userId, actor, now, before, outcome, after)
    ensures !WritesSomething(outcome) ==> after == before
    ensures outcome.Applied? ==>
      && after.groups.Keys == before.groups.Keys + outcome.groupsAdded - outcome.groupsRemoved
      && after.targets.Keys == before.targets.Keys + outcome.targetsAdded - outcome.targetsRemoved
  {
    if userId !in w.people {
      return NotFound(userId), before;
    }
    var user := w.people[userId].user;
    var evaluation := EvaluateRoles(user, RolesFor(w, w.people[userId].organization), now);
    if evaluation.Unevaluable? {
      return Refused(evaluation.roleId, evaluation.roleName, evaluation.reason), before;
    }
    outcome, after := WriteDiff(w, actor, now, evaluation.groupIds, evaluation.targets, before);
  }

  function EventsOf(userId: UserId, o: Outcome): multiset<Event> {
    if !o.Applied? then multiset{}
    else
      multiset(set t | t in o.targetsRemoved :: AccountRevoked(userId, t))
      + multiset(set g | g in o.groupsAdded :: MembershipChanged(g, userId))
      + multiset(set g | g in o.groupsRemoved :: MembershipChanged(g, userId))
  }

  lemma QuietWithoutWrites(userId: UserId, o: Outcome)
    ensures !WritesSomething(o) ==> EventsOf(userId, o) == multiset{}
  {
    if o.Applied? && !WritesSomething(o) {
      assert (set t | t in o.targetsRemoved :: AccountRevoked(userId, t)) == {};
      assert (set g | g in o.groupsAdded :: MembershipChanged(g, userId)) == {};
      assert (set g | g in o.groupsRemoved :: MembershipChanged(g, userId)) == {};
    }
  }

  /** Losing an account is announced exactly once for each account removed; gaining one is not
      announced at all. */
  lemma AccountEventsAreRemovals(userId: UserId, o: Outcome, target: Target)
    requires o.Applied?
    ensures EventsOf(userId, o)[AccountRevoked(userId, target)] == if target in o.targetsRemoved then 1 else 0
  {
  }

  /** A group that a pass adds or removes is announced exactly once. */
  lemma MembershipEventsAreChanges(userId: UserId, o: Outcome, group: GroupId)
    requires o.Applied? && o.groupsAdded !! o.groupsRemoved
    ensures EventsOf(userId, o)[MembershipChanged(group, userId)]
         == if group in o.groupsAdded + o.groupsRemoved then 1 else 0
  {
  }

  lemma DiffIsIdempotent(
    w: World, actor: Option<UserId>, now: int, groups: set<GroupId>, targets: set<Target>,
    r0: PersonRows, o1: Outcome, r1: PersonRows, o2: Outcome, r2: PersonRows)
    requires IsDiff(w, actor, now, groups, targets, r0, o1, r1) && o1.Applied?
    requires IsDiff(w, actor, now, groups, targets, r1, o2, r2)
    ensures r2 == r1 && o2 == Applied({}, {}, {}, {})
  {
    SecondPassWritesNothing(r0.groups, groups, NewGroupRows(w, o1.groupsAdded, actor, now));
    SecondPassWritesNothing(r0.targets, targets, NewTargetRows(o1.targetsAdded, actor, now));
    NoChangeIsDiff(w, actor, now, groups, targets, r1);
  }

  /** Two passes in a row: the second one writes nothing. */
  lemma PassIsIdempotent(
    w: World, userId: UserId, actor: Option<UserId>, now: int,
    r0: PersonRows, o1: Outcome, r1: PersonRows, o2: Outcome, r2: PersonRows)
    requires IsPass(w, userId, actor, now, r0, o1, r1) && IsPass(w, userId, actor, now, r1, o2, r2)
    ensures r2 == r1 && !WritesSomething(o2)
  {
    if o1.Applied? {
      var e := EvaluationOf(w.people[userId].user, RolesFor(w, w.people[userId].organization), now);
      DiffIsIdempotent(w, actor, now, e.groupIds, e.targets, r0, o1, r1, o2, r2);
    }
  }

  /** A role that justifies an entitlement. */
  datatype Justifier = Justifier(roleId: RoleId, roleName: string)

  datatype Justification =
    | Justified(groups: map<GroupId, set<Justifier>>, targets: map<Target, set<Justifier>>)
    | NotJustified(roleId: RoleId, roleName: string, reason: Reason)
    | NoSuchUser

  /** The roles among `roles` that the user holds and that grant the group. */
  function GroupJustifiers(roles: seq<Role>, user: User, now: int, group: GroupId): set<Justifier> {
    set r | r in roles && Holds(r, user, now) && group in GroupsOf(r.grants) :: Justifier(r.id, r.name)
  }

  function TargetJustifiers(roles: seq<Role>, user: User, now: int, target: Target): set<Justifier> {
    set r | r in roles && Holds(r, user, now) && target in TargetsOf(r.grants) :: Justifier(r.id, r.name)
  }

  /** `justifiers` with `j` added under each of `keys`. */
  function Appended<K>(justifiers: map<K, set<Justifier>>, keys: set<K>, j: Justifier): map<K, set<Justifier>> {
    map k | k in justifiers.Keys + keys ::
      if k !in justifiers then {j} else if k in keys then justifiers[k] + {j} else justifiers[k]
  }

  method AppendJustifier<K(==)>(justifiers: map<K, set<Justifier>>, key: K, j: Justifier)
    returns (result: map<K, set<Justifier>>)
    ensures result == Appended(justifiers, {key}, j)
  {
    if key !in justifiers {
      result := justifiers[key := {j}];
    } else {
      result := justifiers[key := justifiers[key] + {j}];
    }
  }

  lemma AppendedTwice<K>(justifiers: map<K, set<Justifier>>, first: set<K>, rest: set<K>, j: Justifier)
    ensures Appended(Appended(justifiers, first, j), rest, j) == Appended(justifiers, first + rest, j)
  {
    forall k | k in justifiers.Keys + first + rest
      ensures Appended(Appended(justifiers, first, j), rest, j)[k] == Appended(justifiers, first + rest, j)[k]
    {
      if k in justifiers {
        assert (justifiers[k] + {j}) + {j} == justifiers[k] + {j};
      } else {
        assert {j} + {j} == {j};
      }
    }
  }

  lemma AppendedGroup(justifiers: map<GroupId, set<Justifier>>, done: seq<Grant>, grant: Grant, j: Justifier)
    ensures var before := Appended(justifiers, GroupsOf(done), j);
      Appended(justifiers, GroupsOf(done + [grant]), j)
      == if grant.GroupGrant? && grant.groupId.Some? then Appended(before, {grant.groupId.value}, j) else before
  {
    if grant.GroupGrant? && grant.groupId.Some? {
      assert GroupsOf(done + [grant]) == GroupsOf(done) + {grant.groupId.value};
      AppendedTwice(justifiers, GroupsOf(done), {grant.groupId.value}, j);
    } else {
      assert GroupsOf(done + [grant]) == GroupsOf(done);
    }
  }

  lemma AppendedTarget(justifiers: map<Target, set<Justifier>>, done: seq<Grant>, grant: Grant, j: Justifier)
    ensures var before := Appended(justifiers, TargetsOf(done), j);
      Appended(justifiers, TargetsOf(done + [grant]), j)
      == if grant.TargetGrant? && grant.target.Some? then Appended(before, {grant.target.value}, j) else before
  {
    if grant.TargetGrant? && grant.target.Some? {
      assert TargetsOf(done + [grant]) == TargetsOf(done) + {grant.target.value};
      AppendedTwice(justifiers, TargetsOf(done), {grant.target.value}, j);
    } else {
      assert TargetsOf(done + [grant]) == TargetsOf(done);
    }
  }

  method AppendGrants(role: Role, groups: map<GroupId, set<Justifier>>, targets: map<Target, set<Justifier>>)
    returns (groups': map<GroupId, set<Justifier>>, targets': map<Target, set<Justifier>>)
    ensures groups' == Appended(groups, GroupsOf(role.grants), Justifier(role.id, role.name))
    ensures targets' == Appended(targets, TargetsOf(role.grants), Justifier(role.id, role.name))
  {
    groups', targets' := groups, targets;
    var j := Justifier(role.id, role.name);
    for i := 0 to |role.grants|
      invariant groups' == Appended(groups, GroupsOf(role.grants[..i]), j)
      invariant targets' == Appended(targets, TargetsOf(role.grants[..i]), j)
    {
      var grant := role.grants[i];
      assert role.grants[..i + 1] == role.grants[..i] + [grant];
      AppendedGroup(groups, role.grants[..i], grant, j);
      AppendedTarget(targets, role.grants[..i], grant, j);
      if grant.GroupGrant? && grant.groupId.Some? {
        groups' := AppendJustifier(groups', grant.groupId.value, j);
      }
      if grant.TargetGrant? && grant.target.Some? {
        targets' := AppendJustifier(targets', grant.target.value, j);
      }
    }
    assert role.grants[..|role.grants|] == role.grants;
  }

  function JustifiedGroups(roles: seq<Role>, user: User, now: int): map<GroupId, set<Justifier>> {
    if roles == [] then map[]
    else
      var last := roles[|roles| - 1];
      var before := JustifiedGroups(roles[..|roles| - 1], user, now);
      if Holds(last, user, now) then Appended(before, GroupsOf(last.grants), Justifier(last.id, last.name)) else before
  }

  function JustifiedTargets(roles: seq<Role>, user: User, now: int): map<Target, set<Justifier>> {
    if roles == [] then map[]
    else
      var last := roles[|roles| - 1];
      var before := JustifiedTargets(roles[..|roles| - 1], user, now);
      if Holds(last, user, now) then Appended(before, TargetsOf(last.grants), Justifier(last.id, last.name)) else before
  }

  /** A group is justified exactly when it is desired, and by exactly the held roles that grant it. */
  lemma {:induction false} GroupsJustifiedExactly(roles: seq<Role>, user: User, now: int, g: GroupId)
    ensures g in JustifiedGroups(roles, user, now) <==> g in DesiredGroups(user, roles, now)
    ensures g in JustifiedGroups(roles, user, now) ==>
      JustifiedGroups(roles, user, now)[g] == GroupJustifiers(roles, user, now, g)
    ensures g !in JustifiedGroups(roles, user, now) ==> GroupJustifiers(roles, user, now, g) == {}
  {
    if roles != [] {
      var most, last := roles[..|roles| - 1], roles[|roles| - 1];
      GroupsJustifiedExactly(most, user, now, g);
      assert roles == most + [last];
      DesiredOfOneMore(user, most, last, now);
      assert GroupJustifiers(roles, user, now, g) == GroupJustifiers(most, user, now, g)
        + if Holds(last, user, now) && g in GroupsOf(last.grants) then {Justifier(last.id, last.name)} else {};
    }
  }

  /** The same for accounts. */
  lemma {:induction false} TargetsJustifiedExactly(roles: seq<Role>, user: User, now: int, t: Target)
    ensures t in JustifiedTargets(roles, user, now) <==> t in DesiredTargets(user, roles, now)
    ensures t in JustifiedTargets(roles, user, now) ==>
      JustifiedTargets(roles, user, now)[t] == TargetJustifiers(roles, user, now, t)
    ensures t !in JustifiedTargets(roles, user, now) ==> TargetJustifiers(roles, user, now, t) == {}
  {
    if roles != [] {
      var most, last := roles[..|roles| - 1], roles[|roles| - 1];
      TargetsJustifiedExactly(most, user, now, t);
      assert roles == most + [last];
      DesiredOfOneMore(user, most, last, now);
      assert TargetJustifiers(roles, user, now, t) == TargetJustifiers(most, user, now, t)
        + if Holds(last, user, now) && t in TargetsOf(last.grants) then {Justifier(last.id, last.name)} else {};
    }
  }

  lemma {:induction false} HeldIdsAreHeld(user: User, roles: seq<Role>, now: int)
    ensures forall id :: id in HeldRoleIds(user, roles, now) <==>
      (exists r :: r in roles && Holds(r, user, now) && r.id == id)
  {
    if roles != [] {
      var most, last := roles[..|roles| - 1], roles[|roles| - 1];
      HeldIdsAreHeld(user, most, now);
      assert forall r :: r in roles <==> r in most || r == last;
    }
  }

  ghost predicate DistinctIds(roles: seq<Role>) {
    forall i, j | 0 <= i < j < |roles| :: roles[i].id != roles[j].id
  }

  /** With distinct role ids, looking a role's id up among the held ids asks whether that role is held. */
  lemma HeldById(user: User, roles: seq<Role>, now: int, i: nat)
    requires DistinctIds(roles) && i < |roles|
    ensures roles[i].id in HeldRoleIds(user, roles, now) <==> Holds(roles[i], user, now)
  {
    HeldIdsAreHeld(user, roles, now);
    if roles[i].id in HeldRoleIds(user, roles, now) {
      var r :| r in roles && Holds(r, user, now) && r.id == roles[i].id;
      var k :| 0 <= k < |roles| && roles[k] == r;
      assert k == i;
    }
  }

  /** Attributes each entitlement to the roles whose id is among the held ones. */
  method Justify(user: User, roles: seq<Role>, now: int, heldRoleIds: seq<RoleId>)
    returns (groups: map<GroupId, set<Justifier>>, targets: map<Target, set<Justifier>>)
    requires DistinctIds(roles) && heldRoleIds == HeldRoleIds(user, roles, now)
    ensures groups == JustifiedGroups(roles, user, now) && targets == JustifiedTargets(roles, user, now)
  {
    groups, targets := map[], map[];
    for i := 0 to |roles|
      invariant groups == JustifiedGroups(roles[..i], user, now)
      invariant targets == JustifiedTargets(roles[..i], user, now)
    {
      assert roles[..i + 1][..i] == roles[..i];
      HeldById(user, roles, now, i);
      if roles[i].id in heldRoleIds {
        groups, targets := AppendGrants(roles[i], groups, targets);
      }
    }
    assert roles[..|roles|] == roles;
  }

  /** The tables reconciliation writes, over the world it reads. */
  class Store {
    const world: World
    /** Every user id in username order. */
    const order: seq<UserId>
    var rows: map<UserId, PersonRows>
    var events: multiset<Event>
    var audits: seq<Audit>

    constructor (w: World, usersByName: seq<UserId>)
      ensures world == w && order == usersByName && rows == map[] && events == multiset{} && audits == []
    {
      world, order := w, usersByName;
      rows, events, audits := map[], multiset{}, [];
    }

    function RowsOf(userId: UserId): PersonRows
      reads this
    {
      RowsIn(rows, userId)
    }

    method ReconcileUser(userId: UserId, actor: Option<UserId>, now: int) returns (outcome: Outcome)
      modifies this
      ensures IsPass(world, userId, actor, now, old(RowsOf(userId)), outcome, RowsOf(userId))
      ensures forall u | u != userId :: RowsOf(u) == old(RowsOf(u))
      ensures events == old(events) + EventsOf(userId, outcome)
      ensures audits == old(audits) + AuditsOf(userId, actor, outcome, old(RowsOf(userId)), RowsOf(userId))
    {
      var before := RowsOf(userId);
      var after;
      outcome, after := PassOver(world, userId, actor, now, before);
      if WritesSomething(outcome) {
        rows := rows[userId := after];
        audits := audits + [ReconcileAudit(actor, userId, before.groups.Keys, before.targets.Keys,
          before.groups.Keys + outcome.groupsAdded - outcome.groupsRemoved,
          before.targets.Keys + outcome.targetsAdded - outcome.targetsRemoved)];
        events := events + EventsOf(userId, outcome);
      }
      QuietWithoutWrites(userId, outcome);
      assert RowsOf(userId) == after;
    }

    /** Read-only: which held roles justify each entitlement. */
    method ExplainUser(userId: UserId, now: int) returns (j: Justification)
      requires userId in world.people ==> DistinctIds(RolesFor(world, world.people[userId].organization))
      ensures userId !in world.people ==> j == NoSuchUser
      ensures userId in world.people ==>
        var user, roles := world.people[userId].user, RolesFor(world, world.people[userId].organization);
        match EvaluationOf(user, roles, now)
        case Unevaluable(roleId, roleName, reason) => j == NotJustified(roleId, roleName, reason)
        case Evaluable(groupIds, targets, _) =>
          j == Justified(JustifiedGroups(roles, user, now), JustifiedTargets(roles, user, now))
    {
      if userId !in world.people {
        return NoSuchUser;
      }
      var user, roles := world.people[userId].user, RolesFor(world, world.people[userId].organization);
      var evaluation := EvaluateRoles(user, roles, now);
      if evaluation.Unevaluable? {
        return NotJustified(evaluation.roleId, evaluation.roleName, evaluation.reason);
      }
      var groups, targets := Justify(user, roles, now, evaluation.matchedRoleIds);
      j := Justified(groups, targets);
    }
  }
}
