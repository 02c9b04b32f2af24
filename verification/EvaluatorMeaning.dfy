/**
 * What the evaluator's answers mean for a reader of a formula: which value each field has, what each operator
 * says about it, when an exception counts, and what a held role entitles to.
 */
module EvaluatorMeaning {
  import opened Common
  import opened Evaluator

  // ---------------------------------------------------------------- the value of a field

  predicate IsText(text: Option<string>, v: Json) {
    match text
    case None => v == JNull
    case Some(s) => v == JStr(s)
  }

  /** The user has this value under the field: one of four columns, where an empty one reads as null, or the
      custom attribute named after the prefix, where an absent one reads as null. */
  ghost predicate HasValue(user: User, field: string, v: Json) {
    || (field == "jobTitle" && IsText(user.jobTitle, v))
    || (field == "location" && IsText(user.location, v))
    || (field == "status" && v == JStr(user.status))
    || (field == "orgUnitId" && v == JStr(user.orgUnitId))
    || (exists key :: key != "" && field == "attributes." + key && IsAttribute(user, key, v))
  }

  predicate IsAttribute(user: User, key: string, v: Json) {
    if key in user.attributes then v == user.attributes[key] else v == JNull
  }

  lemma PrefixIsNoColumn(key: string)
    ensures ("attributes." + key)[0] == 'a'
    ensures "attributes." + key !in {"jobTitle", "location", "status", "orgUnitId"}
  {
    var field := "attributes." + key;
    assert field[0] == 'a';
    assert "jobTitle"[0] == 'j' && "location"[0] == 'l' && "status"[0] == 's' && "orgUnitId"[0] == 'o';
  }

  lemma PrefixedStarts(key: string)
    ensures StartsWith("attributes." + key, ATTRIBUTE_PREFIX)
  {
    assert ("attributes." + key)[..|ATTRIBUTE_PREFIX|] == ATTRIBUTE_PREFIX;
  }

  lemma AttributeFieldReads(user: User, key: string)
    requires key != ""
    ensures ExtractField("attributes." + key, user)
         == Some(if key in user.attributes then user.attributes[key] else JNull)
  {
    var field := "attributes." + key;
    PrefixIsNoColumn(key);
    assert field[..|ATTRIBUTE_PREFIX|] == ATTRIBUTE_PREFIX && field[|ATTRIBUTE_PREFIX|..] == key;
  }

  lemma AttributeFieldSplits(field: string) returns (key: string)
    requires StartsWith(field, ATTRIBUTE_PREFIX) && |field| > |ATTRIBUTE_PREFIX|
    ensures key != "" && field == "attributes." + key
  {
    key := field[|ATTRIBUTE_PREFIX|..];
    assert field == field[..|ATTRIBUTE_PREFIX|] + key;
  }

  lemma ColumnsDiffer()
    ensures "jobTitle" != "location" && "jobTitle" != "status" && "jobTitle" != "orgUnitId"
    ensures "location" != "status" && "location" != "orgUnitId" && "status" != "orgUnitId"
  {
    assert "jobTitle"[0] == 'j' && "location"[0] == 'l' && "status"[0] == 's' && "orgUnitId"[0] == 'o';
  }

  /** The evaluator reads exactly that value, and reads a field exactly when the user has some value under it. */
  lemma FieldMeaning(field: string, user: User, v: Json)
    ensures ExtractField(field, user) == Some(v) <==> HasValue(user, field, v)
  {
    ColumnsDiffer();
    if StartsWith(field, ATTRIBUTE_PREFIX) && |field| > |ATTRIBUTE_PREFIX| {
      var key := AttributeFieldSplits(field);
      PrefixIsNoColumn(key);
      AttributeFieldReads(user, key);
      assert HasValue(user, field, v) <==> IsAttribute(user, key, v) by {
        forall other | other != "" && field == "attributes." + other ensures other == key {
          assert field[|"attributes."|..] == other && field[|"attributes."|..] == key;
        }
      }
    } else {
      forall key | key != "" ensures field != "attributes." + key {
        PrefixedStarts(key);
      }
    }
  }

  /** The user has some value under the field. */
  ghost predicate Nameable(user: User, field: string) {
    exists v :: HasValue(user, field, v)
  }

  lemma NameableMeaning(field: string, user: User)
    ensures ExtractField(field, user).Some? <==> Nameable(user, field)
  {
    if ExtractField(field, user).Some? {
      FieldMeaning(field, user, ExtractField(field, user).value);
    }
    if Nameable(user, field) {
      var v :| HasValue(user, field, v);
      FieldMeaning(field, user, v);
    }
  }

  // ---------------------------------------------------------------- the operators

  predicate IsScalar(v: Json) {
    v.JNull? || v.JBool? || v.JNum? || v.JStr?
  }

  /** `equals` answers for every field there is, and says yes exactly when the user's value is that scalar. */
  lemma EqualsMeaning(field: string, wanted: Json, user: User)
    ensures var m := MatchOne(Condition(field, "equals", wanted), user);
      && (m.Known? <==> Nameable(user, field))
      && (m == Known(true) <==> IsScalar(wanted) && HasValue(user, field, wanted))
  {
    NameableMeaning(field, user);
    FieldMeaning(field, user, wanted);
    assert "equals" in {"equals", "not_equals", "in", "in_org_subtree"};
  }

  lemma OperatorsDiffer()
    ensures "equals" != "not_equals" && "equals" != "in" && "equals" != "in_org_subtree"
    ensures "not_equals" != "in" && "not_equals" != "in_org_subtree" && "in" != "in_org_subtree"
  {
    assert "equals"[0] == 'e' && "not_equals"[0] == 'n' && "in"[0] == 'i' && "in_org_subtree"[0] == 'i';
    assert |"in"| == 2 && |"in_org_subtree"| == 14;
  }

  /** `not_equals` answers exactly when `equals` does, with the opposite verdict. */
  lemma NotEqualsMeaning(field: string, wanted: Json, user: User)
    ensures var yes, no := MatchOne(Condition(field, "equals", wanted), user),
                           MatchOne(Condition(field, "not_equals", wanted), user);
      && (no.Known? <==> yes.Known?)
      && (no.Known? ==> (no.matched <==> !yes.matched))
  {
    OperatorsDiffer();
    var c := Condition(field, "not_equals", wanted);
    assert c.operator in {"equals", "not_equals", "in", "in_org_subtree"};
  }

  /** `in` answers exactly when given a list, for a field there is, and says yes exactly when `equals` would
      for some item of the list. */
  lemma InMeaning(field: string, wanted: Json, user: User)
    ensures var m := MatchOne(Condition(field, "in", wanted), user);
      && (m.Known? <==> wanted.JArr? && Nameable(user, field))
      && (m == Known(true) <==>
            wanted.JArr? && exists v :: v in wanted.items && MatchOne(Condition(field, "equals", v), user) == Known(true))
  {
    OperatorsDiffer();
    NameableMeaning(field, user);
    var c := Condition(field, "in", wanted);
    assert c.operator in {"equals", "not_equals", "in", "in_org_subtree"};
    if wanted.JArr? && Nameable(user, field) {
      var value := ExtractField(field, user).value;
      forall i | 0 <= i < |wanted.items|
        ensures MatchOne(Condition(field, "equals", wanted.items[i]), user) == Known(ScalarEquals(value, wanted.items[i]))
      {
      }
      forall v | v in wanted.items
        ensures exists i :: 0 <= i < |wanted.items| && wanted.items[i] == v
      {
      }
    }
    forall v ensures MatchOne(Condition(field, "equals", v), user) == Known(true) ==> Nameable(user, field) {
      EqualsMeaning(field, v, user);
    }
  }

  /** `in_org_subtree` answers exactly for a non-empty text and a field whose value is the org-unit id, and
      says yes exactly when the labels of the text begin the labels of the user's path. */
  lemma SubtreeMeaning(field: string, wanted: Json, user: User)
    ensures var m := MatchOne(Condition(field, "in_org_subtree", wanted), user);
      && (m.Known? <==> HasValue(user, field, JStr(user.orgUnitId)) && wanted.JStr? && wanted.s != "")
      && (m == Known(true) <==>
            && HasValue(user, field, JStr(user.orgUnitId)) && wanted.JStr? && wanted.s != ""
            && Labels(wanted.s) <= Labels(user.orgUnitPath))
  {
    OperatorsDiffer();
    FieldMeaning(field, user, JStr(user.orgUnitId));
    var c := Condition(field, "in_org_subtree", wanted);
    assert c.operator in {"equals", "not_equals", "in", "in_org_subtree"};
    if wanted.JStr? {
      SubtreeIsLabelPrefix(user.orgUnitPath, wanted.s);
    }
  }

  /** An operator that is none of the four is never answered, and neither is a field there is not. The reason
      names the operator before the field, and the field before the operand. */
  lemma UnknownMeaning(c: Condition, user: User)
    ensures c.operator !in {"equals", "not_equals", "in", "in_org_subtree"} ==>
      MatchOne(c, user) == Unknown(UnknownOperator(c.operator))
    ensures c.operator in {"equals", "not_equals", "in", "in_org_subtree"} && !Nameable(user, c.field) ==>
      MatchOne(c, user) == Unknown(UnknownField(c.field))
    ensures c.operator == "in" && Nameable(user, c.field) && !c.value.JArr? ==> MatchOne(c, user) == Unknown(InNeedsArray)
    ensures c.operator == "in_org_subtree" && Nameable(user, c.field) && !HasValue(user, c.field, JStr(user.orgUnitId)) ==>
      MatchOne(c, user) == Unknown(SubtreeOnlyOnOrgUnit)
    ensures c.operator == "in_org_subtree" && HasValue(user, c.field, JStr(user.orgUnitId)) ==>
      (c.value.JStr? && c.value.s != "") || MatchOne(c, user) == Unknown(SubtreeNeedsPath)
  {
    OperatorsDiffer();
    NameableMeaning(c.field, user);
    FieldMeaning(c.field, user, JStr(user.orgUnitId));
  }

  // ---------------------------------------------------------------- exceptions

  /** The exception names the user, with this mode, and has not passed: it counts at its expiry and not after. */
  predicate Counts(e: Exception, user: UserId, mode: Mode, now: int) {
    e.userId == user && e.mode == mode && (e.expiresAt == None || now <= e.expiresAt.value)
  }

  /** Who holds a role and how: an exclusion that counts first, then an inclusion that counts, then the formula. */
  lemma HoldMeaning(role: Role, user: User, now: int)
    ensures var excluded := exists e :: e in role.exceptions && Counts(e, user.id, Exclude, now);
      var included := exists e :: e in role.exceptions && Counts(e, user.id, Include, now);
      var hold, formula := HoldOf(role, user, now), Evaluate(role.conditions, user);
      && (excluded ==> hold == NotHeld)
      && (!excluded && included ==> hold == Held(ByIncludeException))
      && (!excluded && !included ==>
            && (hold == Held(ByFormula) <==> formula == Known(true))
            && (hold == NotHeld <==> formula == Known(false))
            && (formula.Unknown? ==> hold == HoldUnknown(formula.reason)))
  {
    LiveMeaning(role.exceptions, user.id, Exclude, now);
    LiveMeaning(role.exceptions, user.id, Include, now);
  }

  lemma LiveMeaning(exceptions: seq<Exception>, user: UserId, mode: Mode, now: int)
    ensures HasLive(exceptions, user, mode, now) <==> exists e :: e in exceptions && Counts(e, user, mode, now)
  {
    if HasLive(exceptions, user, mode, now) {
      var i :| 0 <= i < |exceptions| && exceptions[i].userId == user && exceptions[i].mode == mode
        && IsLive(exceptions[i], now);
      assert exceptions[i] in exceptions && Counts(exceptions[i], user, mode, now);
    }
    if e :| e in exceptions && Counts(e, user, mode, now) {
      var i :| 0 <= i < |exceptions| && exceptions[i] == e;
      assert IsLive(exceptions[i], now);
    }
  }

  /** An exception that has passed, or names somebody else, gives the verdict of its absence. */
  lemma PassedIsAbsent(role: Role, before: seq<Exception>, e: Exception, after: seq<Exception>, user: User, now: int)
    requires role.exceptions == before + [e] + after
    requires e.userId != user.id || (e.expiresAt.Some? && e.expiresAt.value < now)
    ensures HoldOf(role, user, now) == HoldOf(role.(exceptions := before + after), user, now)
  {
    forall mode
      ensures HasLive(role.exceptions, user.id, mode, now) <==> HasLive(before + after, user.id, mode, now)
    {
      LiveMeaning(role.exceptions, user.id, mode, now);
      LiveMeaning(before + after, user.id, mode, now);
      assert forall x :: x in role.exceptions <==> x in before + after || x == e;
    }
  }

  // ---------------------------------------------------------------- entitlements

  /** What an evaluation that is not refused entitles to: exactly the groups and accounts granted by roles
      that are held, and the ids of those roles. */
  lemma EntitlementMeaning(user: User, roles: seq<Role>, now: int)
    requires EvaluationOf(user, roles, now).Evaluable?
    ensures var e := EvaluationOf(user, roles, now);
      && (forall g :: g in e.groupIds <==>
            exists r :: r in roles && HoldOf(r, user, now).Held? && GroupGrant(Some(g)) in r.grants)
      && (forall t :: t in e.targets <==>
            exists r :: r in roles && HoldOf(r, user, now).Held? && TargetGrant(Some(t)) in r.grants)
      && (forall id :: id in e.matchedRoleIds <==> exists r :: r in roles && HoldOf(r, user, now).Held? && r.id == id)
  {
    forall id
      ensures id in HeldRoleIds(user, roles, now) <==> exists r :: r in roles && HoldOf(r, user, now).Held? && r.id == id
    {
      HeldIdsMeaning(user, roles, now, id);
    }
    forall g ensures g in DesiredGroups(user, roles, now) <==>
      exists r :: r in roles && HoldOf(r, user, now).Held? && GroupGrant(Some(g)) in r.grants
    {
      GroupMeaning(user, roles, now, g);
    }
    forall t ensures t in DesiredTargets(user, roles, now) <==>
      exists r :: r in roles && HoldOf(r, user, now).Held? && TargetGrant(Some(t)) in r.grants
    {
      TargetMeaning(user, roles, now, t);
    }
  }

  lemma GroupMeaning(user: User, roles: seq<Role>, now: int, g: GroupId)
    ensures g in DesiredGroups(user, roles, now) <==>
      exists r :: r in roles && HoldOf(r, user, now).Held? && GroupGrant(Some(g)) in r.grants
  {
    if g in DesiredGroups(user, roles, now) {
      var r :| r in roles && Holds(r, user, now) && g in GroupsOf(r.grants);
      assert GroupGrant(Some(g)) in r.grants;
    }
    if r :| r in roles && HoldOf(r, user, now).Held? && GroupGrant(Some(g)) in r.grants {
      assert Holds(r, user, now) && g in GroupsOf(r.grants);
    }
  }

  lemma TargetMeaning(user: User, roles: seq<Role>, now: int, t: Target)
    ensures t in DesiredTargets(user, roles, now) <==>
      exists r :: r in roles && HoldOf(r, user, now).Held? && TargetGrant(Some(t)) in r.grants
  {
    if t in DesiredTargets(user, roles, now) {
      var r :| r in roles && Holds(r, user, now) && t in TargetsOf(r.grants);
      assert TargetGrant(Some(t)) in r.grants;
    }
    if r :| r in roles && HoldOf(r, user, now).Held? && TargetGrant(Some(t)) in r.grants {
      assert Holds(r, user, now) && t in TargetsOf(r.grants);
    }
  }

  lemma {:induction false} HeldIdsMeaning(user: User, roles: seq<Role>, now: int, id: RoleId)
    ensures id in HeldRoleIds(user, roles, now) <==> exists r :: r in roles && HoldOf(r, user, now).Held? && r.id == id
  {
    if roles != [] {
      var n := |roles| - 1;
      HeldIdsMeaning(user, roles[..n], now, id);
      assert forall r :: r in roles <==> r in roles[..n] || r == roles[n];
    }
  }

  /** The role at this place is the first that cannot be answered for the user, and the refusal names it with
      its reason. */
  ghost predicate RefusedAt(user: User, roles: seq<Role>, now: int, i: nat, refusal: Evaluation) {
    && i < |roles| && refusal.Unevaluable?
    && HoldOf(roles[i], user, now) == HoldUnknown(refusal.reason)
    && refusal == Unevaluable(roles[i].id, roles[i].name, refusal.reason)
    && (forall k | 0 <= k < i :: !HoldOf(roles[k], user, now).HoldUnknown?)
  }

  /** A refusal names the first role that cannot be answered for this user, with its reason. */
  lemma {:induction false} RefusalMeaning(user: User, roles: seq<Role>, now: int)
    ensures EvaluationOf(user, roles, now).Unevaluable? ==>
      exists i: nat :: RefusedAt(user, roles, now, i, EvaluationOf(user, roles, now))
  {
    if roles != [] {
      var rest := EvaluationOf(user, roles[1..], now);
      RefusalMeaning(user, roles[1..], now);
      if HoldOf(roles[0], user, now).HoldUnknown? {
        assert RefusedAt(user, roles, now, 0, EvaluationOf(user, roles, now));
      } else if rest.Unevaluable? {
        var i: nat :| RefusedAt(user, roles[1..], now, i, rest);
        assert forall k | 1 <= k <= i :: roles[k] == roles[1..][k - 1];
        assert RefusedAt(user, roles, now, i + 1, rest);
      }
    }
  }
}
