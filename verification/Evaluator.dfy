/**
 * The formula evaluator: whether a user meets a role's conditions, whether they hold the role, and
 * what the roles they hold entitle them to. An answer is three-valued: a condition this code does not
 * understand is neither a match nor a mismatch.
 */
module Evaluator {
  import opened Common

  type UserId = string
  type RoleId = string
  type GroupId = string
  type Target = string

  const ATTRIBUTE_PREFIX := "attributes."

  datatype User = User(
    id: UserId, status: string, jobTitle: Option<string>, location: Option<string>,
    orgUnitId: string, orgUnitPath: string, attributes: map<string, Json>)

  datatype Condition = Condition(field: string, operator: string, value: Json)

  datatype Reason =
    | UnknownOperator(operator: string)
    | UnknownField(field: string)
    | InNeedsArray
    | SubtreeOnlyOnOrgUnit
    | SubtreeNeedsPath

  datatype Match = Known(matched: bool) | Unknown(reason: Reason)

  datatype Grant = GroupGrant(groupId: Option<GroupId>) | TargetGrant(target: Option<Target>)

  datatype Mode = Include | Exclude

  datatype Exception = Exception(userId: UserId, mode: Mode, expiresAt: Option<int>)

  datatype Role = Role(
    id: RoleId, name: string, conditions: seq<Condition>, grants: seq<Grant>, exceptions: seq<Exception>)

  datatype Hold = Held(via: Via) | NotHeld | HoldUnknown(reason: Reason)

  datatype Via = ByFormula | ByIncludeException

  datatype Evaluation =
    | Evaluable(groupIds: set<GroupId>, targets: set<Target>, matchedRoleIds: seq<RoleId>)
    | Unevaluable(roleId: RoleId, roleName: string, reason: Reason)

  // ---------------------------------------------------------------- fields and operators

  function OptionalText(text: Option<string>): Json {
    if text.Some? then JStr(text.value) else JNull
  }

  predicate StartsWith(text: string, prefix: string) {
    prefix <= text
  }

  /** The value a condition's field reads off a user, or None for a field that cannot be named. */
  function ExtractField(field: string, user: User): Option<Json> {
    if field == "jobTitle" then Some(OptionalText(user.jobTitle))
    else if field == "location" then Some(OptionalText(user.location))
    else if field == "status" then Some(JStr(user.status))
    else if field == "orgUnitId" then Some(JStr(user.orgUnitId))
    else if StartsWith(field, ATTRIBUTE_PREFIX) && |field| > |ATTRIBUTE_PREFIX| then
      var key := field[|ATTRIBUTE_PREFIX|..];
      Some(if key in user.attributes then user.attributes[key] else JNull)
    else None
  }

  /** Equality of scalars; an object or an array equals nothing, not even itself. */
  predicate ScalarEquals(left: Json, right: Json) {
    !left.JArr? && !left.JObj? && !right.JArr? && !right.JObj? && left == right
  }

  predicate IsAtOrBelow(path: string, ancestor: string) {
    path == ancestor || StartsWith(path, ancestor + ".")
  }

  /** One condition against one user. */
  function MatchOne(c: Condition, user: User): Match {
    if c.operator !in {"equals", "not_equals", "in", "in_org_subtree"} then Unknown(UnknownOperator(c.operator))
    else
      match ExtractField(c.field, user)
      case None => Unknown(UnknownField(c.field))
      case Some(value) =>
        if c.operator == "equals" then Known(ScalarEquals(value, c.value))
        else if c.operator == "not_equals" then Known(!ScalarEquals(value, c.value))
        else if c.operator == "in" then
          if !c.value.JArr? then Unknown(InNeedsArray)
          else Known(exists i | 0 <= i < |c.value.items| :: ScalarEquals(value, c.value.items[i]))
        else if value != JStr(user.orgUnitId) then Unknown(SubtreeOnlyOnOrgUnit)
        else if !c.value.JStr? || c.value.s == "" then Unknown(SubtreeNeedsPath)
        else Known(IsAtOrBelow(user.orgUnitPath, c.value.s))
  }

  // ---------------------------------------------------------------- org-unit paths are label paths

  /** Puts a character in front of a label list: a dot opens a new label. */
  function Push(c: char, labels: seq<string>): seq<string>
    requires |labels| > 0
  {
    if c == '.' then [""] + labels else [[c] + labels[0]] + labels[1..]
  }

  /** The labels of an ltree path: the text between its dots. */
  function Labels(path: string): (labels: seq<string>)
    ensures |labels| > 0
  {
    if path == "" then [""] else Push(path[0], Labels(path[1..]))
  }

  lemma LabelsOfCons(c: char, text: string)
    ensures Labels([c] + text) == Push(c, Labels(text))
  {
    assert ([c] + text)[1..] == text;
  }

  lemma PushConcat(c: char, first: seq<string>, rest: seq<string>)
    requires |first| > 0
    ensures Push(c, first + rest) == Push(c, first) + rest
  {
    assert (first + rest)[1..] == first[1..] + rest;
  }

  lemma {:induction false} LabelsOfExtension(ancestor: string, rest: string)
    ensures Labels(ancestor + "." + rest) == Labels(ancestor) + Labels(rest)
  {
    if ancestor == "" {
      LabelsOfCons('.', rest);
      assert "" + "." + rest == ['.'] + rest;
    } else {
      var c, tail := ancestor[0], ancestor[1..];
      assert ancestor == [c] + tail && ancestor + "." + rest == [c] + (tail + "." + rest);
      LabelsOfExtension(tail, rest);
      LabelsOfCons(c, tail + "." + rest);
      LabelsOfCons(c, tail);
      PushConcat(c, Labels(tail), Labels(rest));
    }
  }

  /** The path with these labels. */
  function Join(labels: seq<string>): string
    requires |labels| > 0
  {
    if |labels| == 1 then labels[0] else labels[0] + "." + Join(labels[1..])
  }

  lemma {:induction false} JoinPush(c: char, labels: seq<string>)
    requires |labels| > 0
    ensures Join(Push(c, labels)) == [c] + Join(labels)
  {
    var pushed := Push(c, labels);
    if c == '.' {
      assert pushed[0] == "" && pushed[1..] == labels;
      assert "" + "." == [c];
    } else {
      assert pushed[0] == [c] + labels[0] && pushed[1..] == labels[1..];
      if |labels| > 1 {
        ConcatThree([c], labels[0], ".", Join(labels[1..]));
      }
    }
  }

  lemma ConcatThree(a: string, b: string, c: string, d: string)
    ensures (a + b) + c + d == a + (b + c + d)
  {
  }

  /** A path is recovered from its labels. */
  lemma {:induction false} JoinLabels(path: string)
    ensures Join(Labels(path)) == path
  {
    if path != "" {
      JoinLabels(path[1..]);
      JoinPush(path[0], Labels(path[1..]));
      assert path == [path[0]] + path[1..];
    }
  }

  lemma {:induction false} JoinConcat(first: seq<string>, rest: seq<string>)
    requires |first| > 0 && |rest| > 0
    ensures Join(first + rest) == Join(first) + "." + Join(rest)
  {
    if |first| == 1 {
      assert (first + rest)[1..] == rest;
    } else {
      JoinConcat(first[1..], rest);
      assert (first + rest)[1..] == first[1..] + rest;
    }
  }

  lemma LabelPrefixIsTextPrefix(path: string, ancestor: string)
    requires Labels(ancestor) <= Labels(path)
    ensures IsAtOrBelow(path, ancestor)
  {
    JoinLabels(path);
    JoinLabels(ancestor);
    var rest := Labels(path)[|Labels(ancestor)|..];
    assert Labels(path) == Labels(ancestor) + rest;
    if rest == [] {
      assert Labels(path) == Labels(ancestor);
    } else {
      JoinConcat(Labels(ancestor), rest);
    }
  }

  /** The textual subtree test is ancestry on labels, for every pair of paths. */
  lemma SubtreeIsLabelPrefix(path: string, ancestor: string)
    ensures IsAtOrBelow(path, ancestor) <==> Labels(ancestor) <= Labels(path)
  {
    if StartsWith(path, ancestor + ".") {
      var rest := path[|ancestor| + 1..];
      assert path == ancestor + "." + rest;
      LabelsOfExtension(ancestor, rest);
    }
    if Labels(ancestor) <= Labels(path) {
      LabelPrefixIsTextPrefix(path, ancestor);
    }
  }

  // ---------------------------------------------------------------- conditions

  function And(matched: bool, rest: Match): Match {
    if rest.Known? then Known(matched && rest.matched) else rest
  }

  function MatchAll(conditions: seq<Condition>, user: User): Match {
    if conditions == [] then Known(true)
    else
      var first := MatchOne(conditions[0], user);
      if first.Unknown? then first else And(first.matched, MatchAll(conditions[1..], user))
  }

  /** The formula's answer; a formula without conditions matches nobody. */
  function Evaluate(conditions: seq<Condition>, user: User): Match {
    if conditions == [] then Known(false) else MatchAll(conditions, user)
  }

  method MatchesConditions(conditions: seq<Condition>, user: User) returns (result: Match)
    ensures result == Evaluate(conditions, user)
  {
    if conditions == [] {
      return Known(false);
    }
    var matchedAll := true;
    for i := 0 to |conditions|
      invariant MatchAll(conditions, user) == And(matchedAll, MatchAll(conditions[i..], user))
    {
      var one := MatchOne(conditions[i], user);
      assert conditions[i..][1..] == conditions[i + 1..];
      if one.Unknown? {
        return one;
      }
      if !one.matched {
        matchedAll := false;
      }
    }
    result := Known(matchedAll);
  }

  /** A formula answers exactly when every one of its conditions does, whatever their order; it then
      matches exactly when there is a condition and all of them match. */
  lemma {:induction false} EvaluateMeaning(conditions: seq<Condition>, user: User)
    ensures Evaluate(conditions, user).Known? <==> forall c | c in conditions :: MatchOne(c, user).Known?
    ensures Evaluate(conditions, user) == Known(true) <==>
      conditions != [] && forall c | c in conditions :: MatchOne(c, user) == Known(true)
    ensures MatchAll(conditions, user).Known? <==> forall c | c in conditions :: MatchOne(c, user).Known?
    ensures MatchAll(conditions, user) == Known(true) <==>
      forall c | c in conditions :: MatchOne(c, user) == Known(true)
  {
    if conditions != [] {
      EvaluateMeaning(conditions[1..], user);
      assert forall c :: c in conditions <==> c == conditions[0] || c in conditions[1..];
    }
  }

  /** The subtree operator answers for a non-empty path exactly when the field's VALUE is the user's
      org-unit id, whichever field that is. */
  lemma SubtreeAnswersIffValueIsOrgUnit(field: string, path: string, user: User)
    requires path != ""
    ensures MatchOne(Condition(field, "in_org_subtree", JStr(path)), user).Known? <==>
      ExtractField(field, user) == Some(JStr(user.orgUnitId))
  {
  }

  /** So a field other than `orgUnitId` can be answered: here a custom attribute holding the id. */
  lemma SubtreeAnswersForOtherField(user: User, path: string)
    requires path != "" && "home" in user.attributes && user.attributes["home"] == JStr(user.orgUnitId)
    ensures MatchOne(Condition(ATTRIBUTE_PREFIX + "home", "in_org_subtree", JStr(path)), user)
         == Known(IsAtOrBelow(user.orgUnitPath, path))
  {
    var field := ATTRIBUTE_PREFIX + "home";
    assert field[0] == 'a' && field[|ATTRIBUTE_PREFIX|..] == "home";
  }

  // ---------------------------------------------------------------- holding a role

  predicate IsLive(e: Exception, now: int) {
    e.expiresAt.None? || e.expiresAt.value >= now
  }

  /** A live exception of this mode names the user. */
  predicate HasLive(exceptions: seq<Exception>, user: UserId, mode: Mode, now: int) {
    exists i | 0 <= i < |exceptions| ::
      exceptions[i].userId == user && exceptions[i].mode == mode && IsLive(exceptions[i], now)
  }

  /** Exclusion beats inclusion, inclusion beats the formula. */
  function HoldOf(role: Role, user: User, now: int): Hold {
    if HasLive(role.exceptions, user.id, Exclude, now) then NotHeld
    else if HasLive(role.exceptions, user.id, Include, now) then Held(ByIncludeException)
    else match Evaluate(role.conditions, user)
      case Unknown(reason) => HoldUnknown(reason)
      case Known(matched) => if matched then Held(ByFormula) else NotHeld
  }

  method ExplainRoleHold(role: Role, user: User, now: int) returns (hold: Hold)
    ensures hold == HoldOf(role, user, now)
  {
    var included := false;
    for i := 0 to |role.exceptions|
      invariant !HasLive(role.exceptions[..i], user.id, Exclude, now)
      invariant included == HasLive(role.exceptions[..i], user.id, Include, now)
    {
      var e := role.exceptions[i];
      var before, after := role.exceptions[..i], role.exceptions[..i + 1];
      assert after == before + [e];
      assert forall mode :: HasLive(after, user.id, mode, now) <==>
        HasLive(before, user.id, mode, now) || (e.userId == user.id && e.mode == mode && IsLive(e, now)) by {
        forall mode | HasLive(before, user.id, mode, now) ensures HasLive(after, user.id, mode, now) {
          var k :| 0 <= k < i && before[k].userId == user.id && before[k].mode == mode && IsLive(before[k], now);
          assert after[k] == before[k];
        }
        assert after[i] == e;
      }
      if e.userId != user.id || !IsLive(e, now) {
        continue;
      }
      if e.mode == Exclude {
        assert role.exceptions[i] == e;
        return NotHeld;
      }
      included := true;
    }
    assert role.exceptions[..|role.exceptions|] == role.exceptions;
    if included {
      return Held(ByIncludeException);
    }
    var match_ := MatchesConditions(role.conditions, user);
    match match_ {
      case Unknown(reason) => hold := HoldUnknown(reason);
      case Known(matched) => hold := if matched then Held(ByFormula) else NotHeld;
    }
  }

  // ---------------------------------------------------------------- entitlements

  function GroupsOf(grants: seq<Grant>): set<GroupId> {
    set g | g in grants && g.GroupGrant? && g.groupId.Some? :: g.groupId.value
  }

  function TargetsOf(grants: seq<Grant>): set<Target> {
    set g | g in grants && g.TargetGrant? && g.target.Some? :: g.target.value
  }

  predicate Holds(role: Role, user: User, now: int) {
    HoldOf(role, user, now).Held?
  }

  /** The groups desired for a user: the union over the roles they hold. */
  function DesiredGroups(user: User, roles: seq<Role>, now: int): set<GroupId> {
    set r, g | r in roles && Holds(r, user, now) && g in GroupsOf(r.grants) :: g
  }

  function DesiredTargets(user: User, roles: seq<Role>, now: int): set<Target> {
    set r, t | r in roles && Holds(r, user, now) && t in TargetsOf(r.grants) :: t
  }

  function HeldRoleIds(user: User, roles: seq<Role>, now: int): seq<RoleId> {
    if roles == [] then []
    else
      var last := roles[|roles| - 1];
      HeldRoleIds(user, roles[..|roles| - 1], now) + (if Holds(last, user, now) then [last.id] else [])
  }

  predicate AllKnown(user: User, roles: seq<Role>, now: int) {
    forall i | 0 <= i < |roles| :: !HoldOf(roles[i], user, now).HoldUnknown?
  }

  function FirstUnknown(user: User, roles: seq<Role>, now: int): (refusal: Option<Evaluation>)
    ensures refusal.Some? ==> refusal.value.Unevaluable?
  {
    if roles == [] then None
    else
      var hold := HoldOf(roles[0], user, now);
      if hold.HoldUnknown? then Some(Unevaluable(roles[0].id, roles[0].name, hold.reason))
      else FirstUnknown(user, roles[1..], now)
  }

  /** The union of the held roles' grants, unless some role cannot be evaluated: then the first such
      role and nothing else. */
  function EvaluationOf(user: User, roles: seq<Role>, now: int): Evaluation {
    match FirstUnknown(user, roles, now)
    case Some(refusal) => refusal
    case None =>
      Evaluable(DesiredGroups(user, roles, now), DesiredTargets(user, roles, now), HeldRoleIds(user, roles, now))
  }

  /** One role that cannot be evaluated makes the whole evaluation a refusal, and only that does. */
  lemma {:induction false} EvaluableIffAllKnown(user: User, roles: seq<Role>, now: int)
    ensures EvaluationOf(user, roles, now).Evaluable? <==> AllKnown(user, roles, now)
    ensures FirstUnknown(user, roles, now) == None <==> AllKnown(user, roles, now)
  {
    if roles != [] {
      EvaluableIffAllKnown(user, roles[1..], now);
      assert forall i | 0 < i < |roles| :: roles[i] == roles[1..][i - 1];
      if AllKnown(user, roles[1..], now) && !HoldOf(roles[0], user, now).HoldUnknown? {
        forall i | 0 <= i < |roles| ensures !HoldOf(roles[i], user, now).HoldUnknown? {
          assert i > 0 ==> roles[i] == roles[1..][i - 1];
        }
      }
    }
  }

  lemma DesiredOfOneMore(user: User, roles: seq<Role>, role: Role, now: int)
    ensures DesiredGroups(user, roles + [role], now)
         == DesiredGroups(user, roles, now) + if Holds(role, user, now) then GroupsOf(role.grants) else {}
    ensures DesiredTargets(user, roles + [role], now)
         == DesiredTargets(user, roles, now) + if Holds(role, user, now) then TargetsOf(role.grants) else {}
    ensures HeldRoleIds(user, roles + [role], now)
         == HeldRoleIds(user, roles, now) + if Holds(role, user, now) then [role.id] else []
  {
    assert forall r :: r in roles + [role] <==> r in roles || r == role;
    assert (roles + [role])[..|roles|] == roles;
  }

  /** Adds a held role's grants to the two sets. */
  method AddGrants(grants: seq<Grant>, groups: set<GroupId>, accounts: set<Target>)
    returns (groupIds: set<GroupId>, targets: set<Target>)
    ensures groupIds == groups + GroupsOf(grants)
    ensures targets == accounts + TargetsOf(grants)
  {
    groupIds, targets := groups, accounts;
    for j := 0 to |grants|
      invariant groupIds == groups + GroupsOf(grants[..j])
      invariant targets == accounts + TargetsOf(grants[..j])
    {
      assert grants[..j + 1] == grants[..j] + [grants[j]];
      if grants[j].GroupGrant? && grants[j].groupId.Some? {
        groupIds := groupIds + {grants[j].groupId.value};
      }
      if grants[j].TargetGrant? && grants[j].target.Some? {
        targets := targets + {grants[j].target.value};
      }
    }
    assert grants[..|grants|] == grants;
  }

  method EvaluateRoles(user: User, roles: seq<Role>, now: int) returns (result: Evaluation)
    ensures result == EvaluationOf(user, roles, now)
  {
    var groupIds: set<GroupId>, targets: set<Target>, matchedRoleIds: seq<RoleId> := {}, {}, [];
    for i := 0 to |roles|
      invariant FirstUnknown(user, roles, now) == FirstUnknown(user, roles[i..], now)
      invariant groupIds == DesiredGroups(user, roles[..i], now)
      invariant targets == DesiredTargets(user, roles[..i], now)
      invariant matchedRoleIds == HeldRoleIds(user, roles[..i], now)
    {
      var role := roles[i];
      assert roles[..i + 1] == roles[..i] + [role] && roles[i..][1..] == roles[i + 1..];
      DesiredOfOneMore(user, roles[..i], role, now);
      var held := ExplainRoleHold(role, user, now);
      if held.HoldUnknown? {
        return Unevaluable(role.id, role.name, held.reason);
      }
      if held == NotHeld {
        continue;
      }
      matchedRoleIds := matchedRoleIds + [role.id];
      groupIds, targets := AddGrants(role.grants, groupIds, targets);
    }
    assert roles[..|roles|] == roles;
    result := Evaluable(groupIds, targets, matchedRoleIds);
  }
}
