/**
 * The standing report on segregation of duties: who holds both roles of an enabled conflict right now.
 */
module SodChecker {
  import opened Common
  import opened Evaluator

  const PAGE_SIZE: nat := 200
  const VIOLATION_SAMPLE_LIMIT: nat := 500

  /** A role as stored, in the organization that owns it. */
  datatype RoleRow = RoleRow(role: Role, organization: string)

  datatype Conflict = Conflict(id: string, organization: string, roleA: RoleId, roleB: RoleId)

  datatype Violation = Violation(
    conflictId: string, userId: UserId, roleA: RoleId, viaA: Via, roleB: RoleId, viaB: Via)

  datatype Report = Report(
    scanned: nat, violationCount: nat, violations: seq<Violation>, truncated: bool,
    unevaluable: map<RoleId, Reason>)

  predicate Involves(c: Conflict, id: RoleId) {
    c.roleA == id || c.roleB == id
  }

  predicate RolesPresent(conflicts: seq<Conflict>, rows: map<RoleId, RoleRow>) {
    forall c | c in conflicts :: c.roleA in rows && c.roleB in rows
  }

  /** What the schema promises of conflicts: two different roles, both of the conflict's organization. */
  predicate WellFormed(conflicts: seq<Conflict>, rows: map<RoleId, RoleRow>) {
    && RolesPresent(conflicts, rows)
    && (forall c | c in conflicts ::
      && c.roleA != c.roleB
      && rows[c.roleA].organization == c.organization
      && rows[c.roleB].organization == c.organization)
  }

  function UsersIn(people: map<string, seq<User>>, organization: string): seq<User> {
    if organization in people then people[organization] else []
  }

  // ---------------------------------------------------------------- one person

  /** The person violates the conflict exactly when both roles are held. */
  function PairViolation(c: Conflict, user: User, rows: map<RoleId, RoleRow>, now: int): seq<Violation>
    requires c.roleA in rows && c.roleB in rows
  {
    var a, b := HoldOf(rows[c.roleA].role, user, now), HoldOf(rows[c.roleB].role, user, now);
    if a.Held? && b.Held? then [Violation(c.id, user.id, c.roleA, a.via, c.roleB, b.via)] else []
  }

  /** The role of the pair that stopped the check: the second is only asked about when the first is held. */
  function PairUnclear(c: Conflict, user: User, rows: map<RoleId, RoleRow>, now: int): map<RoleId, Reason>
    requires c.roleA in rows && c.roleB in rows
  {
    var a, b := HoldOf(rows[c.roleA].role, user, now), HoldOf(rows[c.roleB].role, user, now);
    if a.HoldUnknown? then map[c.roleA := a.reason]
    else if a.Held? && b.HoldUnknown? then map[c.roleB := b.reason]
    else map[]
  }

  function UserViolations(conflicts: seq<Conflict>, user: User, rows: map<RoleId, RoleRow>, now: int): seq<Violation>
    requires RolesPresent(conflicts, rows)
  {
    if conflicts == [] then []
    else
      var n := |conflicts| - 1;
      UserViolations(conflicts[..n], user, rows, now) + PairViolation(conflicts[n], user, rows, now)
  }

  // ---------------------------------------------------------------- everybody

  function OrgViolations(
    conflicts: seq<Conflict>, users: seq<User>, rows: map<RoleId, RoleRow>, now: int): seq<Violation>
    requires RolesPresent(conflicts, rows)
  {
    if users == [] then []
    else
      var n := |users| - 1;
      OrgViolations(conflicts, users[..n], rows, now) + UserViolations(conflicts, users[n], rows, now)
  }

  function InOrganization(conflicts: seq<Conflict>, organization: string): (own: seq<Conflict>)
    ensures forall c :: c in own <==> c in conflicts && c.organization == organization
  {
    if conflicts == [] then []
    else
      var n := |conflicts| - 1;
      InOrganization(conflicts[..n], organization)
      + (if conflicts[n].organization == organization then [conflicts[n]] else [])
  }

  /** The organizations that have a conflict, in the order they are first met. */
  function Organizations(conflicts: seq<Conflict>): seq<string> {
    if conflicts == [] then []
    else
      var n := |conflicts| - 1;
      var before := Organizations(conflicts[..n]);
      if conflicts[n].organization in before then before else before + [conflicts[n].organization]
  }

  lemma {:induction false} OrganizationsHas(conflicts: seq<Conflict>, c: Conflict)
    ensures c in conflicts ==> c.organization in Organizations(conflicts)
  {
    if conflicts != [] {
      OrganizationsHas(conflicts[..|conflicts| - 1], c);
    }
  }

  lemma {:induction false} OrganizationsDistinct(conflicts: seq<Conflict>)
    ensures forall i, j | 0 <= i < j < |Organizations(conflicts)| ::
      Organizations(conflicts)[i] != Organizations(conflicts)[j]
  {
    if conflicts != [] {
      OrganizationsDistinct(conflicts[..|conflicts| - 1]);
    }
  }

  function StandingOver(
    orgs: seq<string>, conflicts: seq<Conflict>, people: map<string, seq<User>>, rows: map<RoleId, RoleRow>, now: int)
    : seq<Violation>
    requires RolesPresent(conflicts, rows)
  {
    if orgs == [] then []
    else
      var n := |orgs| - 1;
      StandingOver(orgs[..n], conflicts, people, rows, now)
      + OrgViolations(InOrganization(conflicts, orgs[n]), UsersIn(people, orgs[n]), rows, now)
  }

  /** Every violation there is, in the order the report meets them. */
  function StandingViolations(
    conflicts: seq<Conflict>, people: map<string, seq<User>>, rows: map<RoleId, RoleRow>, now: int): seq<Violation>
    requires RolesPresent(conflicts, rows)
  {
    StandingOver(Organizations(conflicts), conflicts, people, rows, now)
  }

  // ---------------------------------------------------------------- the walk

  /** How far a walk has come: the people visited, the violations met, and the unclear roles met, each
      with the reason given last. */
  datatype Tally = Tally(scanned: nat, all: seq<Violation>, unclear: map<RoleId, Reason>)

  function PairTally(t: Tally, c: Conflict, user: User, rows: map<RoleId, RoleRow>, now: int): Tally
    requires c.roleA in rows && c.roleB in rows
  {
    Tally(t.scanned, t.all + PairViolation(c, user, rows, now), t.unclear + PairUnclear(c, user, rows, now))
  }

  function UserTally(t: Tally, conflicts: seq<Conflict>, user: User, rows: map<RoleId, RoleRow>, now: int): Tally
    requires RolesPresent(conflicts, rows)
  {
    if conflicts == [] then t.(scanned := t.scanned + 1)
    else
      var n := |conflicts| - 1;
      PairTally(UserTally(t, conflicts[..n], user, rows, now), conflicts[n], user, rows, now)
  }

  function OrgTally(t: Tally, conflicts: seq<Conflict>, users: seq<User>, rows: map<RoleId, RoleRow>, now: int): Tally
    requires RolesPresent(conflicts, rows)
    decreases |users|
  {
    if users == [] then t
    else
      var n := |users| - 1;
      UserTally(OrgTally(t, conflicts, users[..n], rows, now), conflicts, users[n], rows, now)
  }

  function StandingTally(
    orgs: seq<string>, conflicts: seq<Conflict>, people: map<string, seq<User>>, rows: map<RoleId, RoleRow>, now: int)
    : Tally
    requires RolesPresent(conflicts, rows)
  {
    if orgs == [] then Tally(0, [], map[])
    else
      var n := |orgs| - 1;
      OrgTally(StandingTally(orgs[..n], conflicts, people, rows, now),
        InOrganization(conflicts, orgs[n]), UsersIn(people, orgs[n]), rows, now)
  }

  // ---------------------------------------------------------------- the report

  /** A report on a walk: violations counted in full, with the first five hundred as examples. */
  function ReportOf(t: Tally): Report {
    Report(t.scanned, |t.all|, Sample(t.all, VIOLATION_SAMPLE_LIMIT), |t.all| > VIOLATION_SAMPLE_LIMIT, t.unclear)
  }

  /** One conflict of one person. */
  method CheckPair(c: Conflict, user: User, rows: map<RoleId, RoleRow>, now: int, start: Report, ghost t: Tally)
    returns (report: Report)
    requires c.roleA in rows && c.roleB in rows && start == ReportOf(t)
    ensures report == ReportOf(PairTally(t, c, user, rows, now))
  {
    report := start;
    var holdA := ExplainRoleHold(rows[c.roleA].role, user, now);
    if holdA.HoldUnknown? {
      return report.(unevaluable := report.unevaluable[c.roleA := holdA.reason]);
    }
    if holdA.NotHeld? {
      return;
    }
    var holdB := ExplainRoleHold(rows[c.roleB].role, user, now);
    if holdB.HoldUnknown? {
      return report.(unevaluable := report.unevaluable[c.roleB := holdB.reason]);
    }
    if holdB.NotHeld? {
      return;
    }
    var v := Violation(c.id, user.id, c.roleA, holdA.via, c.roleB, holdB.via);
    SampleMore(t.all, v, VIOLATION_SAMPLE_LIMIT);
    report := report.(violationCount := report.violationCount + 1);
    if |report.violations| < VIOLATION_SAMPLE_LIMIT {
      report := report.(violations := report.violations + [v]);
    } else {
      report := report.(truncated := true);
    }
  }

  /** All the conflicts of one person. */
  method CheckUser(conflicts: seq<Conflict>, user: User, rows: map<RoleId, RoleRow>, now: int, start: Report, ghost t: Tally)
    returns (report: Report)
    requires RolesPresent(conflicts, rows) && start == ReportOf(t)
    ensures report == ReportOf(UserTally(t, conflicts, user, rows, now))
  {
    report := start.(scanned := start.scanned + 1);
    for i := 0 to |conflicts|
      invariant report == ReportOf(UserTally(t, conflicts[..i], user, rows, now))
    {
      assert conflicts[..i + 1][..i] == conflicts[..i];
      report := CheckPair(conflicts[i], user, rows, now, report, UserTally(t, conflicts[..i], user, rows, now));
    }
    assert conflicts[..|conflicts|] == conflicts;
  }

  /** The people of one page. */
  method CheckPage(
    conflicts: seq<Conflict>, ghost users: seq<User>, ghost offset: nat, page: seq<User>, rows: map<RoleId, RoleRow>,
    now: int, start: Report, ghost t: Tally)
    returns (report: Report)
    requires offset + |page| <= |users| && page == users[offset..offset + |page|]
    requires RolesPresent(conflicts, rows) && start == ReportOf(OrgTally(t, conflicts, users[..offset], rows, now))
    ensures report == ReportOf(OrgTally(t, conflicts, users[..offset + |page|], rows, now))
  {
    report := start;
    for i := 0 to |page|
      invariant report == ReportOf(OrgTally(t, conflicts, users[..offset + i], rows, now))
    {
      ghost var k := offset + i;
      assert users[..k + 1][..k] == users[..k] && page[i] == users[k];
      report := CheckUser(conflicts, page[i], rows, now, report, OrgTally(t, conflicts, users[..k], rows, now));
    }
  }

  /** The pages of one organization. */
  method CheckOrganization(
    conflicts: seq<Conflict>, users: seq<User>, rows: map<RoleId, RoleRow>, now: int, start: Report, ghost t: Tally)
    returns (report: Report)
    requires RolesPresent(conflicts, rows) && start == ReportOf(t)
    ensures report == ReportOf(OrgTally(t, conflicts, users, rows, now))
  {
    report := start;
    var offset := 0;
    while true
      invariant offset <= |users|
      invariant report == ReportOf(OrgTally(t, conflicts, users[..offset], rows, now))
      decreases |users| - offset
    {
      var page := Page(users, PAGE_SIZE, offset);
      if page == [] {
        break;
      }
      report := CheckPage(conflicts, users, offset, page, rows, now, report, t);
      if |page| < PAGE_SIZE {
        offset := offset + |page|;
        break;
      }
      offset := offset + PAGE_SIZE;
    }
    assert users[..offset] == users;
  }

  lemma {:induction false} NoneOwn(conflicts: seq<Conflict>, organization: string)
    ensures organization !in Organizations(conflicts) ==> InOrganization(conflicts, organization) == []
  {
    if conflicts != [] {
      NoneOwn(conflicts[..|conflicts| - 1], organization);
    }
  }

  /** Each organization that has a conflict is mapped to its own conflicts. */
  ghost predicate Grouped(conflicts: seq<Conflict>, byOrganization: map<string, seq<Conflict>>) {
    && (forall o :: o in byOrganization <==> o in Organizations(conflicts))
    && (forall o | o in byOrganization :: byOrganization[o] == InOrganization(conflicts, o))
  }

  lemma GroupedOneMore(conflicts: seq<Conflict>, c: Conflict, byOrganization: map<string, seq<Conflict>>)
    requires Grouped(conflicts, byOrganization)
    ensures var list := if c.organization in byOrganization then byOrganization[c.organization] else [];
      Grouped(conflicts + [c], byOrganization[c.organization := list + [c]])
    ensures Organizations(conflicts + [c])
      == if c.organization in byOrganization then Organizations(conflicts)
         else Organizations(conflicts) + [c.organization]
  {
    assert (conflicts + [c])[..|conflicts|] == conflicts;
    NoneOwn(conflicts, c.organization);
  }

  /** Groups the conflicts by organization, keeping the order in which both are met. */
  method GroupByOrganization(conflicts: seq<Conflict>)
    returns (orgs: seq<string>, byOrganization: map<string, seq<Conflict>>)
    ensures orgs == Organizations(conflicts) && Grouped(conflicts, byOrganization)
  {
    orgs, byOrganization := [], map[];
    for i := 0 to |conflicts|
      invariant orgs == Organizations(conflicts[..i]) && Grouped(conflicts[..i], byOrganization)
    {
      var c := conflicts[i];
      assert conflicts[..i + 1] == conflicts[..i] + [c];
      GroupedOneMore(conflicts[..i], c, byOrganization);
      var list := if c.organization in byOrganization then byOrganization[c.organization] else [];
      if c.organization !in byOrganization {
        orgs := orgs + [c.organization];
      }
      byOrganization := byOrganization[c.organization := list + [c]];
    }
    assert conflicts[..|conflicts|] == conflicts;
  }

  method LoadRoles(conflicts: seq<Conflict>, rows: map<RoleId, RoleRow>) returns (missing: Option<RoleId>)
    ensures missing.None? <==> RolesPresent(conflicts, rows)
    ensures missing.Some? ==> missing.value !in rows
  {
    for i := 0 to |conflicts|
      invariant RolesPresent(conflicts[..i], rows)
    {
      if conflicts[i].roleA !in rows {
        return Some(conflicts[i].roleA);
      }
      if conflicts[i].roleB !in rows {
        return Some(conflicts[i].roleB);
      }
    }
    assert conflicts[..|conflicts|] == conflicts;
    missing := None;
  }

  method CheckOrganizations(
    orgs: seq<string>, byOrganization: map<string, seq<Conflict>>, people: map<string, seq<User>>,
    rows: map<RoleId, RoleRow>, now: int, ghost conflicts: seq<Conflict>) returns (report: Report)
    requires RolesPresent(conflicts, rows)
    requires forall o | o in orgs :: o in byOrganization && byOrganization[o] == InOrganization(conflicts, o)
    ensures report == ReportOf(StandingTally(orgs, conflicts, people, rows, now))
  {
    report := Report(0, 0, [], false, map[]);
    for i := 0 to |orgs|
      invariant report == ReportOf(StandingTally(orgs[..i], conflicts, people, rows, now))
    {
      assert orgs[..i + 1][..i] == orgs[..i];
      report := CheckOrganization(byOrganization[orgs[i]], UsersIn(people, orgs[i]), rows, now, report,
        StandingTally(orgs[..i], conflicts, people, rows, now));
    }
    assert orgs[..|orgs|] == orgs;
  }

  /** The report counts every violation of every enabled conflict; a role that cannot be evaluated for
      somebody is named and stops nothing else. A conflict whose role has vanished is an error. */
  method ListStandingViolations(
    conflicts: seq<Conflict>, people: map<string, seq<User>>, rows: map<RoleId, RoleRow>, now: int)
    returns (r: Result<Report, RoleId>)
    ensures RolesPresent(conflicts, rows) ==>
      r == Ok(ReportOf(StandingTally(Organizations(conflicts), conflicts, people, rows, now)))
    ensures !RolesPresent(conflicts, rows) ==> r.Err? && r.error !in rows
  {
    var missing := LoadRoles(conflicts, rows);
    if missing.Some? {
      return Err(missing.value);
    }
    var orgs, byOrganization := GroupByOrganization(conflicts);
    var report := CheckOrganizations(orgs, byOrganization, people, rows, now, conflicts);
    r := Ok(report);
  }

  // ---------------------------------------------------------------- what is counted

  lemma {:induction false} UserViolationsMeaning(
    conflicts: seq<Conflict>, user: User, rows: map<RoleId, RoleRow>, now: int, v: Violation)
    requires RolesPresent(conflicts, rows)
    ensures v in UserViolations(conflicts, user, rows, now) <==>
      exists c :: c in conflicts && v in PairViolation(c, user, rows, now)
  {
    if conflicts != [] {
      var n := |conflicts| - 1;
      UserViolationsMeaning(conflicts[..n], user, rows, now, v);
      assert forall c :: c in conflicts <==> c in conflicts[..n] || c == conflicts[n];
    }
  }

  lemma {:induction false} OrgViolationsMeaning(
    conflicts: seq<Conflict>, users: seq<User>, rows: map<RoleId, RoleRow>, now: int, v: Violation)
    requires RolesPresent(conflicts, rows)
    ensures v in OrgViolations(conflicts, users, rows, now) <==>
      exists u, c :: u in users && c in conflicts && v in PairViolation(c, u, rows, now)
  {
    if users != [] {
      var n := |users| - 1;
      OrgViolationsMeaning(conflicts, users[..n], rows, now, v);
      UserViolationsMeaning(conflicts, users[n], rows, now, v);
      assert forall u :: u in users <==> u in users[..n] || u == users[n];
    }
  }

  lemma {:induction false} StandingOverMeaning(
    orgs: seq<string>, conflicts: seq<Conflict>, people: map<string, seq<User>>, rows: map<RoleId, RoleRow>, now: int,
    v: Violation)
    requires RolesPresent(conflicts, rows)
    ensures v in StandingOver(orgs, conflicts, people, rows, now) <==>
      exists u, c :: c in conflicts && c.organization in orgs && u in UsersIn(people, c.organization)
        && v in PairViolation(c, u, rows, now)
  {
    if orgs != [] {
      var n := |orgs| - 1;
      StandingOverMeaning(orgs[..n], conflicts, people, rows, now, v);
      OrgViolationsMeaning(InOrganization(conflicts, orgs[n]), UsersIn(people, orgs[n]), rows, now, v);
      assert forall o :: o in orgs <==> o in orgs[..n] || o == orgs[n];
    }
  }

  /** The standing violations are exactly the pairs of an enabled conflict and a person of its
      organization who holds both of its roles. */
  lemma StandingMeaning(
    conflicts: seq<Conflict>, people: map<string, seq<User>>, rows: map<RoleId, RoleRow>, now: int, v: Violation)
    requires RolesPresent(conflicts, rows)
    ensures v in StandingViolations(conflicts, people, rows, now) <==>
      exists u, c :: c in conflicts && u in UsersIn(people, c.organization) && v in PairViolation(c, u, rows, now)
  {
    StandingOverMeaning(Organizations(conflicts), conflicts, people, rows, now, v);
    forall c | c in conflicts ensures c.organization in Organizations(conflicts) {
      OrganizationsHas(conflicts, c);
    }
  }

  // ---------------------------------------------------------------- the walk meets what is counted

  lemma {:induction false} UserTallyAll(
    t: Tally, conflicts: seq<Conflict>, user: User, rows: map<RoleId, RoleRow>, now: int, id: RoleId)
    requires RolesPresent(conflicts, rows)
    ensures UserTally(t, conflicts, user, rows, now).all == t.all + UserViolations(conflicts, user, rows, now)
    ensures UserTally(t, conflicts, user, rows, now).scanned == t.scanned + 1
    ensures id in UserTally(t, conflicts, user, rows, now).unclear <==>
      id in t.unclear || exists c :: c in conflicts && id in PairUnclear(c, user, rows, now)
  {
    if conflicts != [] {
      var n := |conflicts| - 1;
      UserTallyAll(t, conflicts[..n], user, rows, now, id);
      assert forall c :: c in conflicts <==> c in conflicts[..n] || c == conflicts[n];
    }
  }

  lemma {:induction false} OrgTallyAll(
    t: Tally, conflicts: seq<Conflict>, users: seq<User>, rows: map<RoleId, RoleRow>, now: int, id: RoleId)
    requires RolesPresent(conflicts, rows)
    ensures OrgTally(t, conflicts, users, rows, now).all == t.all + OrgViolations(conflicts, users, rows, now)
    ensures OrgTally(t, conflicts, users, rows, now).scanned == t.scanned + |users|
    ensures id in OrgTally(t, conflicts, users, rows, now).unclear <==>
      id in t.unclear || exists u, c :: u in users && c in conflicts && id in PairUnclear(c, u, rows, now)
    decreases |users|
  {
    if users != [] {
      var n := |users| - 1;
      OrgTallyAll(t, conflicts, users[..n], rows, now, id);
      UserTallyAll(OrgTally(t, conflicts, users[..n], rows, now), conflicts, users[n], rows, now, id);
      assert forall u :: u in users <==> u in users[..n] || u == users[n];
    }
  }

  /** The walk meets exactly the standing violations, in order, and exactly the roles that some pair
      could not be checked for. */
  lemma {:induction false} StandingTallyAll(
    orgs: seq<string>, conflicts: seq<Conflict>, people: map<string, seq<User>>, rows: map<RoleId, RoleRow>, now: int,
    id: RoleId)
    requires RolesPresent(conflicts, rows)
    ensures StandingTally(orgs, conflicts, people, rows, now).all == StandingOver(orgs, conflicts, people, rows, now)
    ensures id in StandingTally(orgs, conflicts, people, rows, now).unclear <==>
      exists u, c :: c in conflicts && c.organization in orgs && u in UsersIn(people, c.organization)
        && id in PairUnclear(c, u, rows, now)
  {
    if orgs != [] {
      var n := |orgs| - 1;
      StandingTallyAll(orgs[..n], conflicts, people, rows, now, id);
      OrgTallyAll(StandingTally(orgs[..n], conflicts, people, rows, now),
        InOrganization(conflicts, orgs[n]), UsersIn(people, orgs[n]), rows, now, id);
      assert forall o :: o in orgs <==> o in orgs[..n] || o == orgs[n];
    }
  }
}
