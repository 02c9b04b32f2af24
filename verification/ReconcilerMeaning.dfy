/**
 * The reconciler over two passes: what a pass writes is what the next one may take back, and nothing else
 * is. Rows are described by their columns.
 */
module ReconcilerMeaning {
  import opened Common
  import opened Evaluator
  import opened EvaluatorMeaning
  import opened Reconciler

  /** The row was written by the reconciler. */
  predicate Derived<K>(rows: map<K, Row>, k: K) {
    k in rows && rows[k].source == BusinessRole
  }

  predicate ByHand<K>(rows: map<K, Row>, k: K) {
    k in rows && rows[k].source == Manual
  }

  /** After an applied pass the derived rows are those desired without a manual row, and the manual rows are
      those of before, untouched. */
  ghost predicate Settles<K(!new)>(before: map<K, Row>, desired: set<K>, after: map<K, Row>) {
    && (forall k :: Derived(after, k) <==> k in desired && !ByHand(before, k))
    && (forall k :: ByHand(after, k) <==> ByHand(before, k))
    && (forall k | ByHand(before, k) :: after[k] == before[k])
  }

  lemma TableSettles<K(!new)>(before: map<K, Row>, desired: set<K>, added: map<K, Row>)
    requires added.Keys == ToAdd(before, desired) && forall k | k in added :: added[k].source == BusinessRole
    ensures Settles(before, desired, Reconciled(before, desired, added))
  {
    PassMeetsDesire(before, desired, added);
  }

  lemma OnePassSettles(
    w: World, actor: Option<UserId>, now: int, groups: set<GroupId>, targets: set<Target>, before: PersonRows,
    outcome: Outcome, after: PersonRows)
    requires IsDiff(w, actor, now, groups, targets, before, outcome, after) && outcome.Applied?
    ensures Settles(before.groups, groups, after.groups) && Settles(before.targets, targets, after.targets)
  {
    TableSettles(before.groups, groups, NewGroupRows(w, outcome.groupsAdded, actor, now));
    TableSettles(before.targets, targets, NewTargetRows(outcome.targetsAdded, actor, now));
  }

  /** After a pass with one desire and a pass with another, the derived rows are exactly those of the second
      desire that are not there by hand, and the rows there by hand are exactly those of the start: whatever
      the first pass wrote, the second takes back if it is no longer desired. */
  lemma TwoPassesSettle(
    w: World, actor: Option<UserId>, now: int, groups: set<GroupId>, targets: set<Target>, before: PersonRows,
    outcome: Outcome, between: PersonRows,
    w': World, actor': Option<UserId>, now': int, groups': set<GroupId>, targets': set<Target>,
    outcome': Outcome, after: PersonRows)
    requires IsDiff(w, actor, now, groups, targets, before, outcome, between) && outcome.Applied?
    requires IsDiff(w', actor', now', groups', targets', between, outcome', after) && outcome'.Applied?
    ensures Settles(before.groups, groups', after.groups) && Settles(before.targets, targets', after.targets)
  {
    OnePassSettles(w, actor, now, groups, targets, before, outcome, between);
    OnePassSettles(w', actor', now', groups', targets', between, outcome', after);
  }

  /** Every row a pass adds is derived, carries the actor and the time of the pass and, in the membership
      table, the organization of its group; it was desired and was not there. */
  lemma AddedRows(
    w: World, actor: Option<UserId>, now: int, groups: set<GroupId>, targets: set<Target>, before: PersonRows,
    outcome: Outcome, after: PersonRows)
    requires IsDiff(w, actor, now, groups, targets, before, outcome, after) && outcome.Applied?
    ensures forall g | g in after.groups && g !in before.groups ::
      && g in groups && after.groups[g].source == BusinessRole && after.groups[g].grantedBy == actor
      && after.groups[g].grantedAt == now
      && g in w.groupOrganization && after.groups[g].organization == Some(w.groupOrganization[g])
    ensures forall t | t in after.targets && t !in before.targets ::
      && t in targets && after.targets[t].source == BusinessRole && after.targets[t].grantedBy == actor
      && after.targets[t].grantedAt == now && after.targets[t].organization == None
    ensures forall g | g in after.groups && g in before.groups :: after.groups[g] == before.groups[g]
    ensures forall t | t in after.targets && t in before.targets :: after.targets[t] == before.targets[t]
  {
  }

  lemma TableChanges<K>(before: map<K, Row>, desired: set<K>, added: map<K, Row>)
    requires added.Keys == ToAdd(before, desired)
    ensures var after := Reconciled(before, desired, added);
      && ToAdd(before, desired) == after.Keys - before.Keys && ToRemove(before, desired) == before.Keys - after.Keys
      && (ToAdd(before, desired) == {} && ToRemove(before, desired) == {} ==> after == before)
  {
    PassMeetsDesire(before, desired, added);
    if added == map[] && ToRemove(before, desired) == {} {
      NothingToDo(before, desired);
    }
  }

  /** The outcome names exactly the rows that appeared and the rows that went. */
  lemma OutcomeNamesChanges(
    w: World, actor: Option<UserId>, now: int, groups: set<GroupId>, targets: set<Target>, before: PersonRows,
    outcome: Outcome, after: PersonRows)
    requires IsDiff(w, actor, now, groups, targets, before, outcome, after) && outcome.Applied?
    ensures outcome.groupsAdded == after.groups.Keys - before.groups.Keys
    ensures outcome.groupsRemoved == before.groups.Keys - after.groups.Keys
    ensures outcome.targetsAdded == after.targets.Keys - before.targets.Keys
    ensures outcome.targetsRemoved == before.targets.Keys - after.targets.Keys
    ensures WritesSomething(outcome) <==> before != after
  {
    TableChanges(before.groups, groups, NewGroupRows(w, outcome.groupsAdded, actor, now));
    TableChanges(before.targets, targets, NewTargetRows(outcome.targetsAdded, actor, now));
  }

  /** One pass over one person, from the formulas to the rows: with every role answered and every group still
      there, the derived rows are exactly the grants of the enabled roles of the person's organization that
      the person holds, apart from those there by hand. */
  lemma PassGivesWhatRolesGrant(
    w: World, userId: UserId, actor: Option<UserId>, now: int, before: PersonRows, outcome: Outcome, after: PersonRows)
    requires IsPass(w, userId, actor, now, before, outcome, after) && outcome.Applied?
    ensures userId in w.people
    ensures var p := w.people[userId];
      var roles := if p.organization in w.enabledRoles then w.enabledRoles[p.organization] else [];
      && (forall g :: Derived(after.groups, g) <==>
            !ByHand(before.groups, g) && exists r :: r in roles && HoldOf(r, p.user, now).Held? && GroupGrant(Some(g)) in r.grants)
      && (forall t :: Derived(after.targets, t) <==>
            !ByHand(before.targets, t) && exists r :: r in roles && HoldOf(r, p.user, now).Held? && TargetGrant(Some(t)) in r.grants)
  {
    var p := w.people[userId];
    var roles := RolesFor(w, p.organization);
    var e := EvaluationOf(p.user, roles, now);
    OnePassSettles(w, actor, now, e.groupIds, e.targets, before, outcome, after);
    EntitlementMeaning(p.user, roles, now);
  }

  /** The audit row says who did it, to whom, and what the person had before and has after; there is one
      exactly when something changed. */
  lemma AuditMeaning(
    userId: UserId, actor: Option<UserId>, outcome: Outcome, before: PersonRows, after: PersonRows)
    ensures WritesSomething(outcome) <==> |AuditsOf(userId, actor, outcome, before, after)| == 1
    ensures forall a | a in AuditsOf(userId, actor, outcome, before, after) ::
      && a.actor == actor && a.userId == userId
      && a.groupsBefore == before.groups.Keys && a.groupsAfter == after.groups.Keys
      && a.targetsBefore == before.targets.Keys && a.targetsAfter == after.targets.Keys
  {
  }

  /** One event per removed account, and per group the person joined or left; none for anything else. */
  lemma EventMeaning(userId: UserId, outcome: Outcome, event: Event)
    requires outcome.Applied? && outcome.groupsAdded !! outcome.groupsRemoved
    ensures EventsOf(userId, outcome)[event] ==
      match event
      case AccountRevoked(u, t) => if u == userId && t in outcome.targetsRemoved then 1 else 0
      case MembershipChanged(g, u) => if u == userId && (g in outcome.groupsAdded || g in outcome.groupsRemoved) then 1 else 0
  {
  }
}
