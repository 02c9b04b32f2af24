/**
 * What the simulation of a draft and the standing report on conflicts say, in terms of formulas, grants and
 * people: who gains and loses what, who would hold two conflicting roles, and who stops the simulation.
 */
module SimulationMeaning {
  import opened Common
  import opened Evaluator
  import opened SodChecker
  import opened Simulation

  // ---------------------------------------------------------------- one person

  /** The person holds the role as it would be with this formula, its exceptions as they are. */
  predicate WouldHold(role: Role, formula: seq<Condition>, user: User, now: int) {
    HoldOf(Role(role.id, role.name, formula, role.grants, role.exceptions), user, now).Held?
  }

  lemma GrantsDoNotMatter(role: Role, grants: seq<Grant>, user: User, now: int)
    ensures HoldOf(role.(grants := grants), user, now) == HoldOf(role, user, now)
  {
  }

  /** The person would hold the role by the draft's formula, and the draft grants this. */
  predicate DraftGives(role: Role, d: Definition, user: User, now: int, grant: Grant) {
    WouldHold(role, d.conditions, user, now) && grant in d.grants
  }

  /** The person holds the role by the published formula, and it grants this. */
  predicate RoleGives(role: Role, user: User, now: int, grant: Grant) {
    WouldHold(role, role.conditions, user, now) && grant in role.grants
  }

  /** A group or account is gained exactly when the draft gives it and the published role does not, and lost
      exactly when it is the other way round. */
  lemma ChangeMeaning(role: Role, d: Definition, user: User, now: int, g: GroupId, t: Target)
    ensures var draft := WithDraft(role, d);
      var gained, lost := Gained(role, draft, user, now), Lost(role, draft, user, now);
      && (g in gained.groups <==>
            DraftGives(role, d, user, now, GroupGrant(Some(g))) && !RoleGives(role, user, now, GroupGrant(Some(g))))
      && (t in gained.targets <==>
            DraftGives(role, d, user, now, TargetGrant(Some(t))) && !RoleGives(role, user, now, TargetGrant(Some(t))))
      && (g in lost.groups <==>
            RoleGives(role, user, now, GroupGrant(Some(g))) && !DraftGives(role, d, user, now, GroupGrant(Some(g))))
      && (t in lost.targets <==>
            RoleGives(role, user, now, TargetGrant(Some(t))) && !DraftGives(role, d, user, now, TargetGrant(Some(t))))
  {
    var draft := WithDraft(role, d);
    GrantsDoNotMatter(draft, role.grants, user, now);
    assert draft.(grants := role.grants) == Role(role.id, role.name, d.conditions, role.grants, role.exceptions);
    assert role == Role(role.id, role.name, role.conditions, role.grants, role.exceptions);
  }

  /** Somebody gains or loses something exactly when there is a group or an account of which it is true. */
  predicate IsSomething(access: Access) {
    (exists g :: g in access.groups) || (exists t :: t in access.targets)
  }

  /** What is found over a population: one entry, with all that changes, for exactly the people for whom
      something changes, be it groups or accounts only. */
  lemma FoundMeaning(
    published: Role, draft: Role, counterparts: seq<Counterpart>, users: seq<User>, now: int, change: Change)
    ensures var f := Found(published, draft, counterparts, users, now);
      && f.scanned == |users|
      && (change in f.gains <==>
            && IsSomething(change.access)
            && exists u :: u in users && u.id == change.userId && change.access == Gained(published, draft, u, now))
      && (change in f.losses <==>
            && IsSomething(change.access)
            && exists u :: u in users && u.id == change.userId && change.access == Lost(published, draft, u, now))
  {
    FoundExactly(published, draft, counterparts, users, now, change);
    forall u | u in users
      ensures change in ChangeOf(u, Gained(published, draft, u, now)) <==>
        IsSomething(change.access) && u.id == change.userId && change.access == Gained(published, draft, u, now)
      ensures change in ChangeOf(u, Lost(published, draft, u, now)) <==>
        IsSomething(change.access) && u.id == change.userId && change.access == Lost(published, draft, u, now)
    {
      ChangeIsSomething(u, Gained(published, draft, u, now), change);
      ChangeIsSomething(u, Lost(published, draft, u, now), change);
    }
  }

  lemma ChangeIsSomething(user: User, access: Access, change: Change)
    ensures change in ChangeOf(user, access) <==>
      IsSomething(change.access) && change == Change(user.id, access)
  {
    assert access.groups != {} <==> exists g :: g in access.groups;
    assert access.targets != {} <==> exists t :: t in access.targets;
  }

  lemma {:induction false} AtMostOneEach(
    published: Role, draft: Role, counterparts: seq<Counterpart>, users: seq<User>, now: int)
    ensures var f := Found(published, draft, counterparts, users, now);
      |f.gains| <= |users| && |f.losses| <= |users|
  {
    if users != [] {
      AtMostOneEach(published, draft, counterparts, users[..|users| - 1], now);
    }
  }

  // ---------------------------------------------------------------- conflicts

  /** The other role of each conflict that names this one on either side. */
  lemma {:induction false} CounterpartMeaning(
    conflicts: seq<Conflict>, rows: map<RoleId, RoleRow>, id: RoleId, c: Counterpart)
    requires OthersPresent(conflicts, rows, id)
    ensures c in Counterparts(conflicts, rows, id) <==>
      exists k :: k in conflicts && c.conflictId == k.id &&
        ((k.roleA == id && k.roleB in rows && c.other == rows[k.roleB].role)
         || (k.roleA != id && k.roleB == id && k.roleA in rows && c.other == rows[k.roleA].role))
  {
    if conflicts != [] {
      var n := |conflicts| - 1;
      CounterpartMeaning(conflicts[..n], rows, id, c);
      assert forall k :: k in conflicts <==> k in conflicts[..n] || k == conflicts[n];
    }
  }

  predicate Joins(k: Conflict, a: RoleId, b: RoleId) {
    (k.roleA == a && k.roleB == b) || (k.roleB == a && k.roleA == b)
  }

  /** The missing role is one that a conflict joins to this one. */
  lemma {:induction false} MissingMeaning(conflicts: seq<Conflict>, rows: map<RoleId, RoleRow>, id: RoleId)
    ensures var missing := MissingOther(conflicts, rows, id);
      && (missing == None <==> forall k | k in conflicts ::
            (k.roleA == id ==> k.roleB in rows) && (k.roleA != id && k.roleB == id ==> k.roleA in rows))
      && (missing.Some? ==> missing.value !in rows && exists k :: k in conflicts && Joins(k, id, missing.value))
  {
    if conflicts != [] {
      var n := |conflicts| - 1;
      MissingMeaning(conflicts[..n], rows, id);
      assert forall k :: k in conflicts <==> k in conflicts[..n] || k == conflicts[n];
    }
  }

  /** A violation is found for exactly the people who would hold the draft and hold a counterpart, with how
      they hold each. */
  lemma SodMeaning(
    published: Role, draft: Role, counterparts: seq<Counterpart>, users: seq<User>, now: int, entry: SodEntry)
    ensures entry in Found(published, draft, counterparts, users, now).sod <==>
      exists u, c :: u in users && c in counterparts && IsDoubleHold(draft, u, c, now, entry)
  {
    FoundSod(published, draft, counterparts, users, now);
    SodOfMeaning(draft, counterparts, users, now, entry);
    forall u | u in users
      ensures entry in UserSod(counterparts, draft, u, now) <==>
        exists c :: c in counterparts && IsDoubleHold(draft, u, c, now, entry)
    {
      UserSodMeaning(counterparts, draft, u, now, entry);
    }
  }

  /** The violations of a population, person by person. */
  function SodOf(counterparts: seq<Counterpart>, draft: Role, users: seq<User>, now: int): seq<SodEntry> {
    if users == [] then []
    else
      var n := |users| - 1;
      SodOf(counterparts, draft, users[..n], now) + UserSod(counterparts, draft, users[n], now)
  }

  lemma {:induction false} FoundSod(
    published: Role, draft: Role, counterparts: seq<Counterpart>, users: seq<User>, now: int)
    ensures Found(published, draft, counterparts, users, now).sod == SodOf(counterparts, draft, users, now)
  {
    if users != [] {
      FoundSod(published, draft, counterparts, users[..|users| - 1], now);
    }
  }

  lemma {:induction false} SodOfMeaning(
    draft: Role, counterparts: seq<Counterpart>, users: seq<User>, now: int, entry: SodEntry)
    ensures entry in SodOf(counterparts, draft, users, now) <==>
      exists u :: u in users && entry in UserSod(counterparts, draft, u, now)
  {
    if users != [] {
      var n := |users| - 1;
      SodOfMeaning(draft, counterparts, users[..n], now, entry);
      assert forall u :: u in users <==> u in users[..n] || u == users[n];
    }
  }

  predicate IsDoubleHold(draft: Role, u: User, c: Counterpart, now: int, entry: SodEntry) {
    && entry.userId == u.id && entry.conflictId == c.conflictId && entry.otherRoleId == c.other.id
    && HoldOf(draft, u, now) == Held(entry.via) && HoldOf(c.other, u, now) == Held(entry.otherVia)
  }

  lemma UserSodMeaning(counterparts: seq<Counterpart>, draft: Role, user: User, now: int, entry: SodEntry)
    ensures entry in UserSod(counterparts, draft, user, now) <==>
      exists c :: c in counterparts && IsDoubleHold(draft, user, c, now, entry)
  {
    var hold := HoldOf(draft, user, now);
    if hold.Held? {
      HeldMeaning(counterparts, hold.via, user, now, entry);
    }
  }

  predicate IsHeld(c: Counterpart, via: Via, user: User, now: int, entry: SodEntry) {
    && entry.userId == user.id && entry.conflictId == c.conflictId && entry.via == via
    && entry.otherRoleId == c.other.id && HoldOf(c.other, user, now) == Held(entry.otherVia)
  }

  lemma OneHeld(c: Counterpart, via: Via, user: User, now: int, entry: SodEntry)
    ensures entry in HeldCounterpart(c, via, user, now) <==> IsHeld(c, via, user, now, entry)
  {
  }

  lemma {:induction false} HeldMeaning(counterparts: seq<Counterpart>, via: Via, user: User, now: int, entry: SodEntry)
    ensures entry in HeldCounterparts(counterparts, via, user, now) <==>
      exists c :: c in counterparts && IsHeld(c, via, user, now, entry)
  {
    if counterparts != [] {
      var n := |counterparts| - 1;
      HeldMeaning(counterparts[..n], via, user, now, entry);
      OneHeld(counterparts[n], via, user, now, entry);
      assert forall c :: c in counterparts <==> c in counterparts[..n] || c == counterparts[n];
    }
  }

  // ---------------------------------------------------------------- refusals

  /** Both formulas are answered for the person and, if they would hold the draft, every counterpart is. */
  ghost predicate Answered(published: Role, draft: Role, counterparts: seq<Counterpart>, u: User, now: int) {
    && !HoldOf(published, u, now).HoldUnknown? && !HoldOf(draft, u, now).HoldUnknown?
    && (HoldOf(draft, u, now).Held? ==> forall c | c in counterparts :: !HoldOf(c.other, u, now).HoldUnknown?)
  }

  /** The simulation is refused exactly when somebody's answer is missing, and names a role that could not be
      answered for somebody, with the reason. */
  lemma {:induction false} RefusalMeaning(
    published: Role, draft: Role, counterparts: seq<Counterpart>, users: seq<User>, now: int)
    ensures var refusal := FirstRefusal(published, draft, counterparts, users, now);
      && (refusal == None <==> forall u | u in users :: Answered(published, draft, counterparts, u, now))
      && (refusal.Some? ==> exists u, r ::
            u in users && NamesUnanswered(published, draft, counterparts, u, r, now, refusal.value))
  {
    if users != [] {
      RefusalMeaning(published, draft, counterparts, users[1..], now);
      UserRefusalMeaning(published, draft, counterparts, users[0], now);
      assert forall u :: u in users <==> u == users[0] || u in users[1..];
    }
  }

  ghost predicate NamesUnanswered(
    published: Role, draft: Role, counterparts: seq<Counterpart>, u: User, r: Role, now: int, refusal: Refusal)
  {
    && (r == published || r == draft || exists c :: c in counterparts && c.other == r)
    && refusal.CannotEvaluate? && refusal.roleId == r.id && refusal.roleName == r.name
    && HoldOf(r, u, now) == HoldUnknown(refusal.reason)
  }

  lemma UserRefusalMeaning(published: Role, draft: Role, counterparts: seq<Counterpart>, u: User, now: int)
    ensures var refusal := UserRefusal(published, draft, counterparts, u, now);
      && (refusal == None <==> Answered(published, draft, counterparts, u, now))
      && (refusal.Some? ==> exists r :: NamesUnanswered(published, draft, counterparts, u, r, now, refusal.value))
      && (HoldOf(published, u, now).HoldUnknown? ==>
            NamesUnanswered(published, draft, counterparts, u, published, now, refusal.value))
  {
    UnknownMeaning(counterparts, u, now);
    var refusal := UserRefusal(published, draft, counterparts, u, now);
    if HoldOf(published, u, now).HoldUnknown? {
      assert NamesUnanswered(published, draft, counterparts, u, published, now, refusal.value);
    } else if HoldOf(draft, u, now).HoldUnknown? {
      assert NamesUnanswered(published, draft, counterparts, u, draft, now, refusal.value);
    } else if HoldOf(draft, u, now).Held? && refusal.Some? {
      var c :| c in counterparts && HoldOf(c.other, u, now).HoldUnknown?
        && refusal == Some(CannotEvaluate(c.other.id, c.other.name, HoldOf(c.other, u, now).reason));
      assert NamesUnanswered(published, draft, counterparts, u, c.other, now, refusal.value);
    }
  }

  lemma {:induction false} UnknownMeaning(counterparts: seq<Counterpart>, user: User, now: int)
    ensures var refusal := UnknownCounterpart(counterparts, user, now);
      && (refusal == None <==> forall c | c in counterparts :: !HoldOf(c.other, user, now).HoldUnknown?)
      && (refusal.Some? ==>
            exists c :: c in counterparts && HoldOf(c.other, user, now).HoldUnknown?
              && refusal == Some(CannotEvaluate(c.other.id, c.other.name, HoldOf(c.other, user, now).reason)))
  {
    if counterparts != [] {
      UnknownMeaning(counterparts[1..], user, now);
      assert forall c :: c in counterparts <==> c == counterparts[0] || c in counterparts[1..];
    }
  }

  // ---------------------------------------------------------------- reports

  /** The first of a list, all of it up to five hundred. */
  predicate IsSampleOf<T(==)>(sample: seq<T>, all: seq<T>) {
    sample <= all && |sample| == if |all| <= 500 then |all| else 500
  }

  /** The report counts everything and shows the first five hundred of each kind; it says so if any is cut. */
  lemma ReportMeaning(f: Findings)
    ensures var r := Simulation.ReportOf(f);
      && r.scanned == f.scanned && r.gainCount == |f.gains| && r.lossCount == |f.losses|
      && r.sodViolationCount == |f.sod|
      && IsSampleOf(r.gains, f.gains) && IsSampleOf(r.losses, f.losses) && IsSampleOf(r.sodViolations, f.sod)
      && (r.truncated <==> r.gains != f.gains || r.losses != f.losses || r.sodViolations != f.sod)
  {
  }

  lemma StandingReportMeaning(t: Tally)
    ensures var r := SodChecker.ReportOf(t);
      && r.scanned == t.scanned && r.violationCount == |t.all| && IsSampleOf(r.violations, t.all)
      && (r.truncated <==> r.violations != t.all) && r.unevaluable == t.unclear
  {
  }

  /** The standing violations are exactly: a conflict, a person of its organization who holds both of its
      roles, and how they hold each. */
  lemma StandingViolationMeaning(
    conflicts: seq<Conflict>, people: map<string, seq<User>>, rows: map<RoleId, RoleRow>, now: int, v: Violation)
    requires RolesPresent(conflicts, rows)
    ensures v in StandingViolations(conflicts, people, rows, now) <==>
      exists u, c :: c in conflicts && c.organization in people && u in people[c.organization]
        && IsViolation(c, u, rows, now, v)
  {
    StandingMeaning(conflicts, people, rows, now, v);
    forall u, c | c in conflicts
      ensures u in UsersIn(people, c.organization) && v in PairViolation(c, u, rows, now) <==>
        c.organization in people && u in people[c.organization] && IsViolation(c, u, rows, now, v)
    {
    }
  }

  predicate IsViolation(c: Conflict, u: User, rows: map<RoleId, RoleRow>, now: int, v: Violation)
    requires c.roleA in rows && c.roleB in rows
  {
    && v.conflictId == c.id && v.userId == u.id && v.roleA == c.roleA && v.roleB == c.roleB
    && HoldOf(rows[c.roleA].role, u, now) == Held(v.viaA) && HoldOf(rows[c.roleB].role, u, now) == Held(v.viaB)
  }

  /** A role is listed as not evaluable for one conflict and person exactly when it stopped the check: the
      first of the two, or the second for somebody who holds the first. */
  lemma UnclearMeaning(c: Conflict, u: User, rows: map<RoleId, RoleRow>, now: int, id: RoleId)
    requires c.roleA in rows && c.roleB in rows && c.roleA != c.roleB
    ensures id in PairUnclear(c, u, rows, now) <==>
      || (id == c.roleA && HoldOf(rows[c.roleA].role, u, now).HoldUnknown?)
      || (id == c.roleB && HoldOf(rows[c.roleA].role, u, now).Held? && HoldOf(rows[c.roleB].role, u, now).HoldUnknown?)
    ensures id in PairUnclear(c, u, rows, now) ==>
      HoldOf(rows[id].role, u, now) == HoldUnknown(PairUnclear(c, u, rows, now)[id])
  {
  }
}
