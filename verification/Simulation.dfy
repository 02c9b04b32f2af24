/**
 * The simulation of a draft: what a role's new definition would start and stop granting to each person,
 * and which conflicts it would put them in. Two agreements are proved: with what the reconciler then
 * does to rows, and with the standing report on conflicts.
 */
module Simulation {
  import opened Common
  import opened Evaluator
  import R = Reconciler
  import opened SodChecker

  const SIMULATION_SAMPLE_LIMIT: nat := 500

  datatype Definition = Definition(conditions: seq<Condition>, grants: seq<Grant>)

  datatype Access = Access(groups: set<GroupId>, targets: set<Target>)

  datatype Change = Change(userId: UserId, access: Access)

  datatype SodEntry = SodEntry(userId: UserId, conflictId: string, via: Via, otherRoleId: RoleId, otherVia: Via)

  datatype Counterpart = Counterpart(conflictId: string, other: Role)

  datatype Refusal = RoleMissing(roleId: RoleId) | CannotEvaluate(roleId: RoleId, roleName: string, reason: Reason)

  datatype SimulationReport = SimulationReport(
    scanned: nat, gainCount: nat, lossCount: nat, sodViolationCount: nat,
    gains: seq<Change>, losses: seq<Change>, sodViolations: seq<SodEntry>, truncated: bool)

  /** The role with the draft in place of its definition; its exceptions are carried over. */
  function WithDraft(role: Role, draft: Definition): Role {
    role.(conditions := draft.conditions, grants := draft.grants)
  }

  // ---------------------------------------------------------------- one person

  /** What this role alone entitles the person to. */
  function AccessFrom(role: Role, user: User, now: int): Access {
    if Holds(role, user, now) then Access(GroupsOf(role.grants), TargetsOf(role.grants)) else Access({}, {})
  }

  function Difference(a: Access, b: Access): Access {
    Access(a.groups - b.groups, a.targets - b.targets)
  }

  function Gained(published: Role, draft: Role, user: User, now: int): Access {
    Difference(AccessFrom(draft, user, now), AccessFrom(published, user, now))
  }

  function Lost(published: Role, draft: Role, user: User, now: int): Access {
    Difference(AccessFrom(published, user, now), AccessFrom(draft, user, now))
  }

  function ChangeOf(user: User, access: Access): seq<Change> {
    if access.groups != {} || access.targets != {} then [Change(user.id, access)] else []
  }

  function CannotEvaluateRole(role: Role, hold: Hold): Refusal
    requires hold.HoldUnknown?
  {
    CannotEvaluate(role.id, role.name, hold.reason)
  }

  function HeldCounterpart(c: Counterpart, via: Via, user: User, now: int): seq<SodEntry> {
    var hold := HoldOf(c.other, user, now);
    if hold.Held? then [SodEntry(user.id, c.conflictId, via, c.other.id, hold.via)] else []
  }

  /** The counterpart roles the person holds, in the order of the conflicts. */
  function HeldCounterparts(counterparts: seq<Counterpart>, via: Via, user: User, now: int): seq<SodEntry> {
    if counterparts == [] then []
    else
      var n := |counterparts| - 1;
      HeldCounterparts(counterparts[..n], via, user, now) + HeldCounterpart(counterparts[n], via, user, now)
  }

  function UserSod(counterparts: seq<Counterpart>, draft: Role, user: User, now: int): seq<SodEntry> {
    var hold := HoldOf(draft, user, now);
    if hold.Held? then HeldCounterparts(counterparts, hold.via, user, now) else []
  }

  function UnknownCounterpart(counterparts: seq<Counterpart>, user: User, now: int): Option<Refusal> {
    if counterparts == [] then None
    else
      var hold := HoldOf(counterparts[0].other, user, now);
      if hold.HoldUnknown? then Some(CannotEvaluateRole(counterparts[0].other, hold))
      else UnknownCounterpart(counterparts[1..], user, now)
  }

  /** Why the simulation cannot go past this person, if it cannot: the counterparts are only asked
      about when the draft is held. */
  function UserRefusal(published: Role, draft: Role, counterparts: seq<Counterpart>, user: User, now: int)
    : Option<Refusal>
  {
    var before, after := HoldOf(published, user, now), HoldOf(draft, user, now);
    if before.HoldUnknown? then Some(CannotEvaluateRole(published, before))
    else if after.HoldUnknown? then Some(CannotEvaluateRole(draft, after))
    else if after.Held? then UnknownCounterpart(counterparts, user, now)
    else None
  }

  // ---------------------------------------------------------------- everybody

  function FirstRefusal(published: Role, draft: Role, counterparts: seq<Counterpart>, users: seq<User>, now: int)
    : Option<Refusal>
  {
    if users == [] then None
    else
      var first := UserRefusal(published, draft, counterparts, users[0], now);
      if first.Some? then first else FirstRefusal(published, draft, counterparts, users[1..], now)
  }

  /** What a walk has found so far, in full. */
  datatype Findings = Findings(scanned: nat, gains: seq<Change>, losses: seq<Change>, sod: seq<SodEntry>)

  function OneMore(f: Findings, published: Role, draft: Role, counterparts: seq<Counterpart>, user: User, now: int)
    : Findings
  {
    Findings(f.scanned + 1,
      f.gains + ChangeOf(user, Gained(published, draft, user, now)),
      f.losses + ChangeOf(user, Lost(published, draft, user, now)),
      f.sod + UserSod(counterparts, draft, user, now))
  }

  function Found(published: Role, draft: Role, counterparts: seq<Counterpart>, users: seq<User>, now: int): Findings {
    if users == [] then Findings(0, [], [], [])
    else
      var n := |users| - 1;
      OneMore(Found(published, draft, counterparts, users[..n], now), published, draft, counterparts, users[n], now)
  }

  /** Everybody is scanned; each gain and each loss found is a person's own, and nobody's is missed. */
  lemma {:induction false} FoundExactly(
    published: Role, draft: Role, counterparts: seq<Counterpart>, users: seq<User>, now: int, change: Change)
    ensures var f := Found(published, draft, counterparts, users, now);
      && f.scanned == |users|
      && (change in f.gains <==> exists u :: u in users && change in ChangeOf(u, Gained(published, draft, u, now)))
      && (change in f.losses <==> exists u :: u in users && change in ChangeOf(u, Lost(published, draft, u, now)))
  {
    if users != [] {
      var n := |users| - 1;
      FoundExactly(published, draft, counterparts, users[..n], now, change);
      assert forall u :: u in users <==> u in users[..n] || u == users[n];
    }
  }

  /** Counts in full, samples of at most five hundred, and a flag for any sample cut short. */
  function ReportOf(f: Findings): SimulationReport {
    SimulationReport(f.scanned, |f.gains|, |f.losses|, |f.sod|,
      Sample(f.gains, SIMULATION_SAMPLE_LIMIT), Sample(f.losses, SIMULATION_SAMPLE_LIMIT),
      Sample(f.sod, SIMULATION_SAMPLE_LIMIT),
      |f.gains| > SIMULATION_SAMPLE_LIMIT || |f.losses| > SIMULATION_SAMPLE_LIMIT || |f.sod| > SIMULATION_SAMPLE_LIMIT)
  }

  // ---------------------------------------------------------------- the walk

  lemma OneRoleList(role: Role, user: User, now: int)
    ensures var hold, evaluation := HoldOf(role, user, now), EvaluationOf(user, [role], now);
      if hold.HoldUnknown? then evaluation == Unevaluable(role.id, role.name, hold.reason)
      else evaluation.Evaluable? && Access(evaluation.groupIds, evaluation.targets) == AccessFrom(role, user, now)
  {
    var none: seq<Role> := [];
    assert [role] == none + [role] && [role][1..] == none;
    DesiredOfOneMore(user, none, role, now);
    assert DesiredGroups(user, none, now) == {} && DesiredTargets(user, none, now) == {};
    assert FirstUnknown(user, none, now) == None && [role][0] == role;
  }

  /** The evaluator over a one-role list. */
  method EvaluateOne(role: Role, user: User, now: int) returns (r: Result<Access, Refusal>)
    ensures var hold := HoldOf(role, user, now);
      r == if hold.HoldUnknown? then Err(CannotEvaluateRole(role, hold)) else Ok(AccessFrom(role, user, now))
  {
    OneRoleList(role, user, now);
    var evaluation := EvaluateRoles(user, [role], now);
    if evaluation.Unevaluable? {
      return Err(CannotEvaluate(evaluation.roleId, evaluation.roleName, evaluation.reason));
    }
    r := Ok(Access(evaluation.groupIds, evaluation.targets));
  }

  method NoteGain(report: SimulationReport, user: User, access: Access,
                  ghost f: Findings)
    returns (noted: SimulationReport)
    requires report == ReportOf(f)
    ensures noted == ReportOf(f.(gains := f.gains + ChangeOf(user, access)))
  {
    noted := report;
    if access.groups != {} || access.targets != {} {
      SampleMore(f.gains, Change(user.id, access), SIMULATION_SAMPLE_LIMIT);
      noted := noted.(gainCount := noted.gainCount + 1);
      if |noted.gains| < SIMULATION_SAMPLE_LIMIT {
        noted := noted.(gains := noted.gains + [Change(user.id, access)]);
      } else {
        noted := noted.(truncated := true);
      }
    }
  }

  method NoteLoss(report: SimulationReport, user: User, access: Access,
                  ghost f: Findings)
    returns (noted: SimulationReport)
    requires report == ReportOf(f)
    ensures noted == ReportOf(f.(losses := f.losses + ChangeOf(user, access)))
  {
    noted := report;
    if access.groups != {} || access.targets != {} {
      SampleMore(f.losses, Change(user.id, access), SIMULATION_SAMPLE_LIMIT);
      noted := noted.(lossCount := noted.lossCount + 1);
      if |noted.losses| < SIMULATION_SAMPLE_LIMIT {
        noted := noted.(losses := noted.losses + [Change(user.id, access)]);
      } else {
        noted := noted.(truncated := true);
      }
    }
  }

  lemma HeldCounterpartsMore(
    f: seq<SodEntry>, counterparts: seq<Counterpart>, i: nat, via: Via, user: User, now: int)
    requires i < |counterparts|
    ensures f + HeldCounterparts(counterparts[..i + 1], via, user, now)
         == f + HeldCounterparts(counterparts[..i], via, user, now) + HeldCounterpart(counterparts[i], via, user, now)
  {
    assert counterparts[..i + 1][..i] == counterparts[..i];
  }

  method NoteCounterpart(report: SimulationReport, c: Counterpart, via: Via, user: User, now: int, ghost f: Findings)
    returns (r: Result<SimulationReport, Refusal>)
    requires report == ReportOf(f)
    ensures var hold := HoldOf(c.other, user, now);
      r == if hold.HoldUnknown? then Err(CannotEvaluateRole(c.other, hold))
           else Ok(ReportOf(f.(sod := f.sod + HeldCounterpart(c, via, user, now))))
  {
    var hold := ExplainRoleHold(c.other, user, now);
    if hold.HoldUnknown? {
      return Err(CannotEvaluateRole(c.other, hold));
    }
    if hold.NotHeld? {
      assert f.sod + [] == f.sod;
      return Ok(report);
    }
    var entry := SodEntry(user.id, c.conflictId, via, c.other.id, hold.via);
    SampleMore(f.sod, entry, SIMULATION_SAMPLE_LIMIT);
    var noted := report.(sodViolationCount := report.sodViolationCount + 1);
    if |noted.sodViolations| < SIMULATION_SAMPLE_LIMIT {
      noted := noted.(sodViolations := noted.sodViolations + [entry]);
    } else {
      noted := noted.(truncated := true);
    }
    r := Ok(noted);
  }

  method NoteCounterparts(report: SimulationReport, counterparts: seq<Counterpart>, via: Via, user: User, now: int,
                          ghost f: Findings)
    returns (r: Result<SimulationReport, Refusal>)
    requires report == ReportOf(f)
    ensures match UnknownCounterpart(counterparts, user, now)
      case Some(refusal) => r == Err(refusal)
      case None => r == Ok(ReportOf(f.(sod := f.sod + HeldCounterparts(counterparts, via, user, now))))
  {
    var noted := report;
    ghost var found := f;
    for i := 0 to |counterparts|
      invariant found == f.(sod := f.sod + HeldCounterparts(counterparts[..i], via, user, now))
      invariant noted == ReportOf(found)
      invariant UnknownCounterpart(counterparts, user, now) == UnknownCounterpart(counterparts[i..], user, now)
    {
      HeldCounterpartsMore(f.sod, counterparts, i, via, user, now);
      assert counterparts[i..][0] == counterparts[i] && counterparts[i..][1..] == counterparts[i + 1..];
      var one := NoteCounterpart(noted, counterparts[i], via, user, now, found);
      if one.Err? {
        return one;
      }
      noted := one.value;
      found := f.(sod := f.sod + HeldCounterparts(counterparts[..i + 1], via, user, now));
    }
    assert counterparts[..|counterparts|] == counterparts;
    r := Ok(noted);
  }

  method SimulateUser(report: SimulationReport, published: Role, draft: Role, counterparts: seq<Counterpart>,
                      user: User, now: int,
                      ghost f: Findings)
    returns (r: Result<SimulationReport, Refusal>)
    requires report == ReportOf(f)
    ensures match UserRefusal(published, draft, counterparts, user, now)
      case Some(refusal) => r == Err(refusal)
      case None => r == Ok(ReportOf(OneMore(f, published, draft, counterparts, user, now)))
  {
    var noted := report.(scanned := report.scanned + 1);
    var before := EvaluateOne(published, user, now);
    if before.Err? {
      return Err(before.error);
    }
    var after := EvaluateOne(draft, user, now);
    if after.Err? {
      return Err(after.error);
    }
    var gained, lost := Difference(after.value, before.value), Difference(before.value, after.value);
    ghost var f' := f.(scanned := f.scanned + 1);
    noted := NoteGain(noted, user, gained, f');
    f' := f'.(gains := f'.gains + ChangeOf(user, gained));
    noted := NoteLoss(noted, user, lost, f');
    f' := f'.(losses := f'.losses + ChangeOf(user, lost));
    var hold := ExplainRoleHold(draft, user, now);
    if hold.Held? && counterparts != [] {
      r := NoteCounterparts(noted, counterparts, hold.via, user, now, f');
    } else {
      assert f.sod + UserSod(counterparts, draft, user, now) == f.sod;
      r := Ok(noted);
    }
  }

  /** The conflicts this role is part of, each with the other role as it stands. */
  function Counterparts(conflicts: seq<Conflict>, rows: map<RoleId, RoleRow>, id: RoleId): seq<Counterpart>
    requires OthersPresent(conflicts, rows, id)
  {
    if conflicts == [] then []
    else
      var n := |conflicts| - 1;
      Counterparts(conflicts[..n], rows, id)
      + if Involves(conflicts[n], id) then [Counterpart(conflicts[n].id, rows[OtherRole(conflicts[n], id)].role)] else []
  }

  function OtherRole(c: Conflict, id: RoleId): RoleId {
    if c.roleA == id then c.roleB else c.roleA
  }

  /** The other role of each conflict of this one is among the roles. Other conflicts do not matter. */
  predicate OthersPresent(conflicts: seq<Conflict>, rows: map<RoleId, RoleRow>, id: RoleId) {
    forall c | c in conflicts && Involves(c, id) :: OtherRole(c, id) in rows
  }

  /** The first counterpart that is not there. */
  function MissingOther(conflicts: seq<Conflict>, rows: map<RoleId, RoleRow>, id: RoleId): (missing: Option<RoleId>)
    ensures missing.None? <==> OthersPresent(conflicts, rows, id)
    ensures missing.Some? ==> missing.value !in rows
  {
    if conflicts == [] then None
    else
      var n := |conflicts| - 1;
      assert forall c :: c in conflicts <==> c in conflicts[..n] || c == conflicts[n];
      var before := MissingOther(conflicts[..n], rows, id);
      if before.Some? then before
      else if Involves(conflicts[n], id) && OtherRole(conflicts[n], id) !in rows then Some(OtherRole(conflicts[n], id))
      else None
  }

  lemma {:induction false} MissingSpreads(conflicts: seq<Conflict>, rows: map<RoleId, RoleRow>, id: RoleId, i: nat)
    requires i <= |conflicts| && MissingOther(conflicts[..i], rows, id).Some?
    ensures MissingOther(conflicts, rows, id) == MissingOther(conflicts[..i], rows, id)
    decreases |conflicts|
  {
    if i < |conflicts| {
      assert conflicts[..|conflicts| - 1][..i] == conflicts[..i];
      MissingSpreads(conflicts[..|conflicts| - 1], rows, id, i);
    } else {
      assert conflicts[..i] == conflicts;
    }
  }

  method LoadCounterparts(conflicts: seq<Conflict>, rows: map<RoleId, RoleRow>, id: RoleId)
    returns (r: Result<seq<Counterpart>, Refusal>)
    ensures match MissingOther(conflicts, rows, id)
      case Some(otherId) => r == Err(RoleMissing(otherId))
      case None => r == Ok(Counterparts(conflicts, rows, id))
  {
    var counterparts := [];
    for i := 0 to |conflicts|
      invariant MissingOther(conflicts[..i], rows, id) == None
      invariant counterparts == Counterparts(conflicts[..i], rows, id)
    {
      assert conflicts[..i + 1][..i] == conflicts[..i];
      if Involves(conflicts[i], id) {
        var otherId := OtherRole(conflicts[i], id);
        if otherId !in rows {
          MissingSpreads(conflicts, rows, id, i + 1);
          return Err(RoleMissing(otherId));
        }
        counterparts := counterparts + [Counterpart(conflicts[i].id, rows[otherId].role)];
      }
    }
    assert conflicts[..|conflicts|] == conflicts;
    r := Ok(counterparts);
  }

  /** Where a walk stands after `k` people: the report on them, and the refusal still ahead, if any. */
  datatype Progress = Progress(report: SimulationReport, ahead: Option<Refusal>)

  ghost function ProgressAt(
    published: Role, draft: Role, counterparts: seq<Counterpart>, users: seq<User>, k: nat, now: int): Progress
    requires k <= |users|
  {
    Progress(ReportOf(Found(published, draft, counterparts, users[..k], now)),
             FirstRefusal(published, draft, counterparts, users[k..], now))
  }

  lemma NothingWalked(published: Role, draft: Role, counterparts: seq<Counterpart>, users: seq<User>, now: int)
    ensures ProgressAt(published, draft, counterparts, users, 0, now)
         == Progress(SimulationReport(0, 0, 0, 0, [], [], [], false),
                     FirstRefusal(published, draft, counterparts, users, now))
  {
    assert users[0..] == users;
  }

  lemma EverybodyWalked(published: Role, draft: Role, counterparts: seq<Counterpart>, users: seq<User>, now: int)
    ensures ProgressAt(published, draft, counterparts, users, |users|, now)
         == Progress(ReportOf(Found(published, draft, counterparts, users, now)), None)
  {
    assert users[..|users|] == users && users[|users|..] == [];
  }

  method WalkOne(start: SimulationReport, published: Role, draft: Role, counterparts: seq<Counterpart>,
                 user: User, now: int, ghost users: seq<User>, ghost k: nat, ghost refusal: Option<Refusal>)
    returns (r: Result<SimulationReport, Refusal>)
    requires k < |users| && user == users[k] && Progress(start, refusal) == ProgressAt(published, draft, counterparts, users, k, now)
    ensures r.Ok? ==> Progress(r.value, refusal) == ProgressAt(published, draft, counterparts, users, k + 1, now)
    ensures r.Err? ==> refusal == Some(r.error)
  {
    assert users[..k + 1][..k] == users[..k] && users[k..][0] == users[k] && users[k..][1..] == users[k + 1..];
    r := SimulateUser(start, published, draft, counterparts, user, now,
      Found(published, draft, counterparts, users[..k], now));
  }

  method WalkPage(start: SimulationReport, published: Role, draft: Role, counterparts: seq<Counterpart>,
                  page: seq<User>, now: int, ghost users: seq<User>, ghost k: nat, ghost refusal: Option<Refusal>)
    returns (r: Result<SimulationReport, Refusal>)
    requires k + |page| <= |users| && page == users[k..k + |page|]
    requires Progress(start, refusal) == ProgressAt(published, draft, counterparts, users, k, now)
    ensures r.Ok? ==> Progress(r.value, refusal) == ProgressAt(published, draft, counterparts, users, k + |page|, now)
    ensures r.Err? ==> refusal == Some(r.error)
  {
    var report := start;
    for i := 0 to |page|
      invariant Progress(report, refusal) == ProgressAt(published, draft, counterparts, users, k + i, now)
    {
      var one := WalkOne(report, published, draft, counterparts, page[i], now, users, k + i, refusal);
      if one.Err? {
        return one;
      }
      report := one.value;
    }
    r := Ok(report);
  }

  /** The report of a completed walk, or the refusal that aborted it. */
  ghost function Finished(
    published: Role, draft: Role, counterparts: seq<Counterpart>, users: seq<User>, now: int)
    : Result<SimulationReport, Refusal>
  {
    match FirstRefusal(published, draft, counterparts, users, now)
    case Some(refusal) => Err(refusal)
    case None => Ok(ReportOf(Found(published, draft, counterparts, users, now)))
  }

  /** `trail` lists where the walk stands after each number of people. */
  ghost predicate IsTrail(trail: seq<Progress>, published: Role, draft: Role, counterparts: seq<Counterpart>,
                          users: seq<User>, now: int)
  {
    && |trail| == |users| + 1
    && (forall k: nat {:trigger ProgressAt(published, draft, counterparts, users, k, now)} | k <= |users| ::
          trail[k] == ProgressAt(published, draft, counterparts, users, k, now))
  }

  lemma Trail(published: Role, draft: Role, counterparts: seq<Counterpart>, users: seq<User>, now: int)
    returns (trail: seq<Progress>)
    ensures IsTrail(trail, published, draft, counterparts, users, now)
    ensures trail[0].report == SimulationReport(0, 0, 0, 0, [], [], [], false)
    ensures Finished(published, draft, counterparts, users, now)
         == if trail[0].ahead.Some? then Err(trail[0].ahead.value) else Ok(trail[|users|].report)
    ensures trail[|users|].ahead == None
  {
    trail := seq(|users| + 1, k requires 0 <= k <= |users| =>
      ProgressAt(published, draft, counterparts, users, k, now));
    NothingWalked(published, draft, counterparts, users, now);
    EverybodyWalked(published, draft, counterparts, users, now);
  }

  method WalkFrom(start: SimulationReport, published: Role, draft: Role, counterparts: seq<Counterpart>,
                  page: seq<User>, now: int, ghost users: seq<User>, ghost k: nat, ghost trail: seq<Progress>)
    returns (r: Result<SimulationReport, Refusal>)
    requires k + |page| <= |users| && page == users[k..k + |page|]
    requires IsTrail(trail, published, draft, counterparts, users, now)
    requires Progress(start, trail[0].ahead) == trail[k]
    ensures r.Ok? ==> Progress(r.value, trail[0].ahead) == trail[k + |page|]
    ensures r.Err? ==> trail[0].ahead == Some(r.error)
  {
    assert trail[k] == ProgressAt(published, draft, counterparts, users, k, now);
    assert trail[k + |page|] == ProgressAt(published, draft, counterparts, users, k + |page|, now);
    r := WalkPage(start, published, draft, counterparts, page, now, users, k, trail[0].ahead);
  }

  /** The pages of the role's organization. A person who cannot be evaluated aborts the simulation. */
  method Walk(published: Role, draft: Role, counterparts: seq<Counterpart>, users: seq<User>, now: int)
    returns (r: Result<SimulationReport, Refusal>)
    ensures r == Finished(published, draft, counterparts, users, now)
  {
    ghost var trail := Trail(published, draft, counterparts, users, now);
    var report := SimulationReport(0, 0, 0, 0, [], [], [], false);
    var offset := 0;
    while true
      invariant offset <= |users|
      invariant Progress(report, trail[0].ahead) == trail[offset]
      decreases |users| - offset
    {
      var page := Page(users, PAGE_SIZE, offset);
      if page == [] {
        break;
      }
      var walked := WalkFrom(report, published, draft, counterparts, page, now, users, offset, trail);
      if walked.Err? {
        return walked;
      }
      report := walked.value;
      offset := offset + |page|;
      if |page| < PAGE_SIZE {
        break;
      }
    }
    r := Ok(report);
  }

  method RunSimulation(conflicts: seq<Conflict>, people: map<string, seq<User>>, rows: map<RoleId, RoleRow>,
                       id: RoleId, definition: Definition, now: int) returns (r: Result<SimulationReport, Refusal>)
    requires id in rows
    ensures match MissingOther(conflicts, rows, id)
      case Some(otherId) => r == Err(RoleMissing(otherId))
      case None =>
        var published := rows[id].role;
        var draft, users := WithDraft(published, definition), UsersIn(people, rows[id].organization);
        r == Finished(published, draft, Counterparts(conflicts, rows, id), users, now)
  {
    var counterparts := LoadCounterparts(conflicts, rows, id);
    if counterparts.Err? {
      return Err(counterparts.error);
    }
    r := Walk(rows[id].role, WithDraft(rows[id].role, definition), counterparts.value,
      UsersIn(people, rows[id].organization), now);
  }

  // ---------------------------------------------------------------- simulation and reconciliation

  lemma ReplacingOneRole(user: User, roles: seq<Role>, i: nat, draft: Role, now: int)
    requires i < |roles|
    ensures var others := roles[..i] + roles[i + 1..];
      && DesiredGroups(user, roles, now) == DesiredGroups(user, others, now) + AccessFrom(roles[i], user, now).groups
      && DesiredTargets(user, roles, now) == DesiredTargets(user, others, now) + AccessFrom(roles[i], user, now).targets
  {
    var others := roles[..i] + roles[i + 1..];
    assert forall r :: r in roles <==> r in others || r == roles[i] by {
      assert roles == roles[..i] + [roles[i]] + roles[i + 1..];
    }
  }

  /** The heart of the bound: rows at the fixpoint of the old roles, one role replaced. What is then to
      be added was simulated as gained, what is to be removed was simulated as lost, and the lemma says
      exactly which of the simulated changes move a row. */
  lemma SimulationBoundsDiff<K>(rows: map<K, R.Row>, others: set<K>, was: set<K>, will: set<K>)
    requires R.ToAdd(rows, others + was) == {} && R.ToRemove(rows, others + was) == {}
    ensures R.ToAdd(rows, others + will) == (will - was) - rows.Keys
    ensures R.ToRemove(rows, others + will)
         == set k | k in was - will && k in rows && rows[k].source.BusinessRole? && k !in others
  {
    assert forall k | k in others + was :: k !in rows ==> k in R.ToAdd(rows, others + was);
    assert forall k | k in rows && rows[k].source.BusinessRole? ::
      k !in others + was ==> k in R.ToRemove(rows, others + was);
  }

  lemma OthersStayKnown(user: User, roles: seq<Role>, i: nat, draft: Role, now: int)
    requires i < |roles| && AllKnown(user, roles, now) && !HoldOf(draft, user, now).HoldUnknown?
    ensures AllKnown(user, roles[i := draft], now)
  {
  }

  /** Simulation bounds reconciliation: a person whose rows a pass leaves alone, whose role `i` is then
      replaced by a draft that was simulated for them, is reconciled next. Every row the next pass adds
      was among the simulated gains and every row it removes was among the simulated losses, whatever
      the other roles and the hand-granted rows are. */
  lemma SimulationBoundsReconciliation(
    w: R.World, userId: UserId, now: int, roles: seq<Role>, i: nat, draft: Role, rows: R.PersonRows,
    settled: R.Outcome, actor: Option<UserId>, next: R.Outcome, after: R.PersonRows)
    requires userId in w.people && i < |roles| && roles == R.RolesFor(w, w.people[userId].organization)
    requires UserRefusal(roles[i], draft, [], w.people[userId].user, now) == None
    requires R.IsPass(w, userId, actor, now, rows, settled, rows)
    requires settled.Applied? && !R.WritesSomething(settled)
    requires R.IsPass(w.(enabledRoles := w.enabledRoles[w.people[userId].organization := roles[i := draft]]),
      userId, actor, now, rows, next, after)
    ensures !next.Refused?
    ensures next.Applied? ==>
      var user := w.people[userId].user;
      var gained, lost := Gained(roles[i], draft, user, now), Lost(roles[i], draft, user, now);
      && next.groupsAdded == gained.groups - rows.groups.Keys
      && next.targetsAdded == gained.targets - rows.targets.Keys
      && next.groupsRemoved <= lost.groups
      && next.targetsRemoved <= lost.targets
  {
    var user, draftRoles := w.people[userId].user, roles[i := draft];
    var others := roles[..i] + roles[i + 1..];
    EvaluableIffAllKnown(user, roles, now);
    OthersStayKnown(user, roles, i, draft, now);
    EvaluableIffAllKnown(user, draftRoles, now);
    ReplacingOneRole(user, roles, i, draft, now);
    ReplacingOneRole(user, draftRoles, i, draft, now);
    assert draftRoles[..i] == roles[..i] && draftRoles[i + 1..] == roles[i + 1..];
    SimulationBoundsDiff(rows.groups, DesiredGroups(user, others, now),
      AccessFrom(roles[i], user, now).groups, AccessFrom(draft, user, now).groups);
    SimulationBoundsDiff(rows.targets, DesiredTargets(user, others, now),
      AccessFrom(roles[i], user, now).targets, AccessFrom(draft, user, now).targets);
  }

  // ---------------------------------------------------------------- simulation and the standing report

  /** A violation that involves the role, seen from that role's side. */
  function EntryFor(v: Violation, id: RoleId): seq<SodEntry> {
    if v.roleA == id then [SodEntry(v.userId, v.conflictId, v.viaA, v.roleB, v.viaB)]
    else if v.roleB == id then [SodEntry(v.userId, v.conflictId, v.viaB, v.roleA, v.viaA)]
    else []
  }

  function EntriesFor(violations: seq<Violation>, id: RoleId): seq<SodEntry> {
    if violations == [] then []
    else EntriesFor(violations[..|violations| - 1], id) + EntryFor(violations[|violations| - 1], id)
  }

  /** The violations that do not involve the role. */
  function NotInvolving(violations: seq<Violation>, id: RoleId): seq<Violation> {
    if violations == [] then []
    else
      var v := violations[|violations| - 1];
      NotInvolving(violations[..|violations| - 1], id) + if v.roleA == id || v.roleB == id then [] else [v]
  }

  lemma {:induction false} EntriesConcat(a: seq<Violation>, b: seq<Violation>, id: RoleId)
    ensures EntriesFor(a + b, id) == EntriesFor(a, id) + EntriesFor(b, id)
    decreases |b|
  {
    if b == [] {
      assert a + b == a;
    } else {
      EntriesConcat(a, b[..|b| - 1], id);
      assert (a + b)[..|a + b| - 1] == a + b[..|b| - 1];
    }
  }

  lemma {:induction false} NotInvolvingConcat(a: seq<Violation>, b: seq<Violation>, id: RoleId)
    ensures NotInvolving(a + b, id) == NotInvolving(a, id) + NotInvolving(b, id)
    decreases |b|
  {
    if b == [] {
      assert a + b == a;
    } else {
      NotInvolvingConcat(a, b[..|b| - 1], id);
      assert (a + b)[..|a + b| - 1] == a + b[..|b| - 1];
    }
  }

  lemma OneEntry(v: Violation, id: RoleId)
    ensures EntriesFor([v], id) == EntryFor(v, id)
    ensures NotInvolving([v], id) == if v.roleA == id || v.roleB == id then [] else [v]
  {
    assert [v][..0] == [];
  }

  function RowsAfterPublish(rows: map<RoleId, RoleRow>, id: RoleId, definition: Definition): map<RoleId, RoleRow>
    requires id in rows
  {
    rows[id := rows[id].(role := WithDraft(rows[id].role, definition))]
  }

  /** One conflict of the role and one person: a violation after the publish is a held counterpart of a
      held draft. */
  lemma PairAgrees(
    c: Conflict, user: User, rows: map<RoleId, RoleRow>, id: RoleId, definition: Definition, now: int)
    requires c.roleA in rows && c.roleB in rows && c.roleA != c.roleB && id in rows && Involves(c, id)
    requires rows[OtherRole(c, id)].role.id == OtherRole(c, id)
    ensures var draft := HoldOf(WithDraft(rows[id].role, definition), user, now);
      EntriesFor(PairViolation(c, user, RowsAfterPublish(rows, id, definition), now), id)
      == if draft.Held? then HeldCounterpart(Counterpart(c.id, rows[OtherRole(c, id)].role), draft.via, user, now) else []
  {
    var found := PairViolation(c, user, RowsAfterPublish(rows, id, definition), now);
    if found != [] {
      OneEntry(found[0], id);
      assert found == [found[0]];
    }
  }

  lemma PairOfOthers(c: Conflict, user: User, rows: map<RoleId, RoleRow>, id: RoleId, now: int)
    requires c.roleA in rows && c.roleB in rows && !Involves(c, id)
    ensures EntriesFor(PairViolation(c, user, rows, now), id) == []
  {
    var found := PairViolation(c, user, rows, now);
    if found != [] {
      OneEntry(found[0], id);
      assert found == [found[0]];
    }
  }

  /** The violations of the role's conflicts after the publish, for one person, read off the conflicts. */
  function EntriesOver(conflicts: seq<Conflict>, user: User, rows: map<RoleId, RoleRow>, id: RoleId, now: int)
    : seq<SodEntry>
    requires RolesPresent(conflicts, rows)
  {
    if conflicts == [] then []
    else
      EntriesOver(conflicts[..|conflicts| - 1], user, rows, id, now)
      + EntriesFor(PairViolation(conflicts[|conflicts| - 1], user, rows, now), id)
  }

  lemma {:induction false} EntriesAreOver(
    conflicts: seq<Conflict>, user: User, rows: map<RoleId, RoleRow>, id: RoleId, now: int)
    requires RolesPresent(conflicts, rows)
    ensures EntriesFor(UserViolations(conflicts, user, rows, now), id) == EntriesOver(conflicts, user, rows, id, now)
  {
    if conflicts != [] {
      var n := |conflicts| - 1;
      EntriesAreOver(conflicts[..n], user, rows, id, now);
      EntriesConcat(UserViolations(conflicts[..n], user, rows, now), PairViolation(conflicts[n], user, rows, now), id);
    }
  }

  /** Only the role's own organization matters: conflicts elsewhere do not involve it. */
  lemma {:induction false} OverOrganization(
    conflicts: seq<Conflict>, organization: string, user: User, rows: map<RoleId, RoleRow>, id: RoleId, now: int)
    requires WellFormed(conflicts, rows) && id in rows
    ensures EntriesOver(InOrganization(conflicts, organization), user, rows, id, now)
      == if organization == rows[id].organization then EntriesOver(conflicts, user, rows, id, now) else []
  {
    if conflicts != [] {
      var n := |conflicts| - 1;
      var c, own := conflicts[n], InOrganization(conflicts[..n], organization);
      OverOrganization(conflicts[..n], organization, user, rows, id, now);
      assert c in conflicts;
      if c.organization == organization {
        assert (own + [c])[..|own|] == own && InOrganization(conflicts, organization) == own + [c];
      } else {
        assert InOrganization(conflicts, organization) == own;
      }
      if !Involves(c, id) {
        PairOfOthers(c, user, rows, id, now);
      }
    }
  }

  /** One person: what the conflicts say after the publish is what the simulation found for them. */
  lemma {:induction false} UserAgrees(
    conflicts: seq<Conflict>, user: User, rows: map<RoleId, RoleRow>, id: RoleId, definition: Definition, now: int)
    requires WellFormed(conflicts, rows) && id in rows
    requires forall r | r in rows :: rows[r].role.id == r
    ensures EntriesOver(conflicts, user, RowsAfterPublish(rows, id, definition), id, now)
         == UserSod(Counterparts(conflicts, rows, id), WithDraft(rows[id].role, definition), user, now)
  {
    if conflicts != [] {
      var n := |conflicts| - 1;
      var c := conflicts[n];
      UserAgrees(conflicts[..n], user, rows, id, definition, now);
      assert c in conflicts;
      if Involves(c, id) {
        PairAgrees(c, user, rows, id, definition, now);
        UserSodMore(Counterparts(conflicts[..n], rows, id), Counterpart(c.id, rows[OtherRole(c, id)].role),
          WithDraft(rows[id].role, definition), user, now);
      } else {
        PairOfOthers(c, user, RowsAfterPublish(rows, id, definition), id, now);
        assert Counterparts(conflicts, rows, id) == Counterparts(conflicts[..n], rows, id);
      }
    }
  }

  lemma UserSodMore(counterparts: seq<Counterpart>, c: Counterpart, draft: Role, user: User, now: int)
    ensures var hold := HoldOf(draft, user, now);
      UserSod(counterparts + [c], draft, user, now)
      == UserSod(counterparts, draft, user, now)
         + if hold.Held? then HeldCounterpart(c, hold.via, user, now) else []
  {
    assert (counterparts + [c])[..|counterparts|] == counterparts;
  }

  /** What a simulation of the definition finds: the list whose length is the recorded violation count. */
  function SimulatedSod(
    conflicts: seq<Conflict>, users: seq<User>, rows: map<RoleId, RoleRow>, id: RoleId, definition: Definition, now: int)
    : seq<SodEntry>
    requires RolesPresent(conflicts, rows) && id in rows
  {
    var role := rows[id].role;
    Found(role, WithDraft(role, definition), Counterparts(conflicts, rows, id), users, now).sod
  }

  lemma {:induction false} OrgAgrees(
    conflicts: seq<Conflict>, organization: string, users: seq<User>, rows: map<RoleId, RoleRow>, id: RoleId,
    definition: Definition, now: int)
    requires WellFormed(conflicts, rows) && id in rows
    requires forall r | r in rows :: rows[r].role.id == r
    ensures var own, after := InOrganization(conflicts, organization), RowsAfterPublish(rows, id, definition);
      EntriesFor(OrgViolations(own, users, after, now), id)
      == if organization == rows[id].organization then SimulatedSod(conflicts, users, rows, id, definition, now) else []
  {
    if users != [] {
      var n := |users| - 1;
      var own, after := InOrganization(conflicts, organization), RowsAfterPublish(rows, id, definition);
      OrgAgrees(conflicts, organization, users[..n], rows, id, definition, now);
      EntriesConcat(OrgViolations(own, users[..n], after, now), UserViolations(own, users[n], after, now), id);
      EntriesAreOver(own, users[n], after, id, now);
      OverOrganization(conflicts, organization, users[n], after, id, now);
      UserAgrees(conflicts, users[n], rows, id, definition, now);
    }
  }

  ghost predicate Distinct(orgs: seq<string>) {
    forall i, j | 0 <= i < j < |orgs| :: orgs[i] != orgs[j]
  }

  lemma LastOrEarlier(orgs: seq<string>, o: string)
    requires orgs != [] && Distinct(orgs)
    ensures Distinct(orgs[..|orgs| - 1])
    ensures o == orgs[|orgs| - 1] ==> o in orgs && o !in orgs[..|orgs| - 1]
    ensures o != orgs[|orgs| - 1] ==> (o in orgs <==> o in orgs[..|orgs| - 1])
  {
  }

  lemma {:induction false} OrgsAgree(
    orgs: seq<string>, conflicts: seq<Conflict>, people: map<string, seq<User>>, rows: map<RoleId, RoleRow>, id: RoleId,
    definition: Definition, now: int)
    requires WellFormed(conflicts, rows) && id in rows && Distinct(orgs)
    requires forall r | r in rows :: rows[r].role.id == r
    ensures var own, after := rows[id].organization, RowsAfterPublish(rows, id, definition);
      EntriesFor(StandingOver(orgs, conflicts, people, after, now), id)
      == if own in orgs then SimulatedSod(conflicts, UsersIn(people, own), rows, id, definition, now) else []
  {
    if orgs != [] {
      var n := |orgs| - 1;
      var after, o := RowsAfterPublish(rows, id, definition), orgs[n];
      LastOrEarlier(orgs, rows[id].organization);
      OrgsAgree(orgs[..n], conflicts, people, rows, id, definition, now);
      OrgAgrees(conflicts, o, UsersIn(people, o), rows, id, definition, now);
      var earlier, last := StandingOver(orgs[..n], conflicts, people, after, now),
        OrgViolations(InOrganization(conflicts, o), UsersIn(people, o), after, now);
      EntriesConcat(earlier, last, id);
      assert StandingOver(orgs, conflicts, people, after, now) == earlier + last;
      if rows[id].organization == o {
        assert EntriesFor(earlier, id) == [];
        assert EntriesFor(earlier, id) + EntriesFor(last, id) == EntriesFor(last, id);
      } else {
        assert EntriesFor(last, id) == [];
        assert EntriesFor(earlier, id) + EntriesFor(last, id) == EntriesFor(earlier, id);
      }
    }
  }

  // ---------------------------------------------------------------- the other conflicts

  lemma {:induction false} OtherPairsStay(
    conflicts: seq<Conflict>, user: User, rows: map<RoleId, RoleRow>, id: RoleId, definition: Definition, now: int)
    requires RolesPresent(conflicts, rows) && id in rows
    ensures NotInvolving(UserViolations(conflicts, user, RowsAfterPublish(rows, id, definition), now), id)
         == NotInvolving(UserViolations(conflicts, user, rows, now), id)
  {
    if conflicts != [] {
      var n := |conflicts| - 1;
      var c, after := conflicts[n], RowsAfterPublish(rows, id, definition);
      OtherPairsStay(conflicts[..n], user, rows, id, definition, now);
      var found, was := PairViolation(c, user, after, now), PairViolation(c, user, rows, now);
      NotInvolvingConcat(UserViolations(conflicts[..n], user, after, now), found, id);
      NotInvolvingConcat(UserViolations(conflicts[..n], user, rows, now), was, id);
      if found != [] {
        OneEntry(found[0], id);
        assert found == [found[0]];
      }
      if was != [] {
        OneEntry(was[0], id);
        assert was == [was[0]];
      }
    }
  }

  lemma {:induction false} OtherUsersStay(
    conflicts: seq<Conflict>, users: seq<User>, rows: map<RoleId, RoleRow>, id: RoleId, definition: Definition, now: int)
    requires RolesPresent(conflicts, rows) && id in rows
    ensures NotInvolving(OrgViolations(conflicts, users, RowsAfterPublish(rows, id, definition), now), id)
         == NotInvolving(OrgViolations(conflicts, users, rows, now), id)
  {
    if users != [] {
      var n := |users| - 1;
      var after := RowsAfterPublish(rows, id, definition);
      OtherUsersStay(conflicts, users[..n], rows, id, definition, now);
      OtherPairsStay(conflicts, users[n], rows, id, definition, now);
      NotInvolvingConcat(OrgViolations(conflicts, users[..n], after, now), UserViolations(conflicts, users[n], after, now), id);
      NotInvolvingConcat(OrgViolations(conflicts, users[..n], rows, now), UserViolations(conflicts, users[n], rows, now), id);
    }
  }

  lemma {:induction false} OthersStay(
    orgs: seq<string>, conflicts: seq<Conflict>, people: map<string, seq<User>>, rows: map<RoleId, RoleRow>, id: RoleId,
    definition: Definition, now: int)
    requires RolesPresent(conflicts, rows) && id in rows
    ensures NotInvolving(StandingOver(orgs, conflicts, people, RowsAfterPublish(rows, id, definition), now), id)
         == NotInvolving(StandingOver(orgs, conflicts, people, rows, now), id)
  {
    if orgs != [] {
      var n := |orgs| - 1;
      var after, own, users := RowsAfterPublish(rows, id, definition), InOrganization(conflicts, orgs[n]), UsersIn(people, orgs[n]);
      OthersStay(orgs[..n], conflicts, people, rows, id, definition, now);
      OtherUsersStay(own, users, rows, id, definition, now);
      NotInvolvingConcat(StandingOver(orgs[..n], conflicts, people, after, now), OrgViolations(own, users, after, now), id);
      NotInvolvingConcat(StandingOver(orgs[..n], conflicts, people, rows, now), OrgViolations(own, users, rows, now), id);
    }
  }

  lemma {:induction false} NoCounterparts(conflicts: seq<Conflict>, rows: map<RoleId, RoleRow>, id: RoleId)
    requires RolesPresent(conflicts, rows) && forall c | c in conflicts :: !Involves(c, id)
    ensures Counterparts(conflicts, rows, id) == []
  {
    if conflicts != [] {
      NoCounterparts(conflicts[..|conflicts| - 1], rows, id);
    }
  }

  lemma {:induction false} NoSodEntries(published: Role, draft: Role, users: seq<User>, now: int)
    ensures Found(published, draft, [], users, now).sod == []
  {
    if users != [] {
      NoSodEntries(published, draft, users[..|users| - 1], now);
    }
  }

  /** The gate and the report agree: the violations a simulation of the draft finds are, one by one and
      in order, the standing violations on this role's conflicts once the draft is published, and the
      publish leaves all other violations as they were. */
  lemma SimulationAgreesWithStandingReport(
    conflicts: seq<Conflict>, people: map<string, seq<User>>, rows: map<RoleId, RoleRow>, id: RoleId,
    definition: Definition, now: int)
    requires WellFormed(conflicts, rows) && id in rows
    requires forall r | r in rows :: rows[r].role.id == r
    ensures var after := RowsAfterPublish(rows, id, definition);
      && EntriesFor(StandingViolations(conflicts, people, after, now), id)
         == SimulatedSod(conflicts, UsersIn(people, rows[id].organization), rows, id, definition, now)
      && NotInvolving(StandingViolations(conflicts, people, after, now), id)
         == NotInvolving(StandingViolations(conflicts, people, rows, now), id)
  {
    OrganizationsDistinct(conflicts);
    OrgsAgree(Organizations(conflicts), conflicts, people, rows, id, definition, now);
    OthersStay(Organizations(conflicts), conflicts, people, rows, id, definition, now);
    if rows[id].organization !in Organizations(conflicts) {
      forall c | c in conflicts ensures !Involves(c, id) {
        OrganizationsHas(conflicts, c);
      }
      NoCounterparts(conflicts, rows, id);
      NoSodEntries(rows[id].role, WithDraft(rows[id].role, definition), UsersIn(people, rows[id].organization), now);
    }
  }
}
