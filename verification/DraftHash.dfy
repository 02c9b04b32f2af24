/**
 * A draft's definition: how it is validated, how it is stored and read back, and the hash that says
 * whether two definitions are the same.
 */
module DraftHash {
  import opened Common
  import opened Evaluator
  import opened Ordering
  import opened Simulation

  const OPERATORS := ["equals", "not_equals", "in", "in_org_subtree"]
  const MAX_CONDITIONS: nat := 32
  const MAX_GRANTS: nat := 64
  const MAX_FIELD: nat := 128
  const NUL: char := '\0'
  const ALL_CONNECTOR_TARGETS := [
    "keycloak", "active_directory", "entra_id", "google_workspace", "echo", "mail_server", "scim_slack", "scim_zoom",
    "scim_atlassian", "scim_box", "scim_snowflake", "scim_generic", "keycloak_sso"]

  // ---------------------------------------------------------------- validation

  /** A property of a JSON object; a later duplicate wins, an absent one reads as null. */
  function Property(members: seq<(string, Json)>, name: string): Json {
    if members == [] then JNull
    else if members[|members| - 1].0 == name then members[|members| - 1].1
    else Property(members[..|members| - 1], name)
  }

  /** No string and no key anywhere in the value holds a NUL. */
  predicate NulFree(value: Json) {
    match value
    case JStr(s) => NUL !in s
    case JArr(items) => forall i | 0 <= i < |items| :: NulFree(items[i])
    case JObj(members) => forall i | 0 <= i < |members| :: NUL !in members[i].0 && NulFree(members[i].1)
    case _ => true
  }

  function ParseCondition(entry: Json): Option<Condition> {
    if !entry.JObj? then None
    else
      var field, operator := Property(entry.members, "field"), Property(entry.members, "operator");
      var value := Property(entry.members, "value");
      if field.JStr? && 0 < |field.s| <= MAX_FIELD && operator.JStr? && operator.s in OPERATORS && NUL !in field.s && NulFree(value)
      then Some(Condition(field.s, operator.s, value))
      else None
  }

  function ParseGrant(entry: Json): Option<Grant> {
    if !entry.JObj? then None
    else
      var kind := Property(entry.members, "kind");
      var groupId, target := Property(entry.members, "groupId"), Property(entry.members, "target");
      if kind == JStr("group_membership") && groupId.JStr? && target.JNull? then Some(GroupGrant(Some(groupId.s)))
      else if kind == JStr("target_account") && target.JStr? && groupId.JNull? && target.s in ALL_CONNECTOR_TARGETS
      then Some(TargetGrant(Some(target.s)))
      else None
  }

  function ParseConditions(entries: seq<Json>): Option<seq<Condition>> {
    if entries == [] then Some([])
    else
      var first, rest := ParseCondition(entries[0]), ParseConditions(entries[1..]);
      if first.Some? && rest.Some? then Some([first.value] + rest.value) else None
  }

  function ParseGrants(entries: seq<Json>): Option<seq<Grant>> {
    if entries == [] then Some([])
    else
      var first, rest := ParseGrant(entries[0]), ParseGrants(entries[1..]);
      if first.Some? && rest.Some? then Some([first.value] + rest.value) else None
  }

  /** Refuses anything that is not a definition within the limits; it never coerces. */
  function ParseDefinition(input: Json): Option<Definition> {
    if !input.JObj? then None
    else
      var conditions, grants := Property(input.members, "conditions"), Property(input.members, "grants");
      if !conditions.JArr? || !grants.JArr? || |conditions.items| > MAX_CONDITIONS || |grants.items| > MAX_GRANTS then None
      else
        var cs, gs := ParseConditions(conditions.items), ParseGrants(grants.items);
        if cs.Some? && gs.Some? then Some(Definition(cs.value, gs.value)) else None
  }

  // ---------------------------------------------------------------- storing and reading back

  function StoredCondition(c: Condition): Json {
    JObj([("field", JStr(c.field)), ("operator", JStr(c.operator)), ("value", c.value)])
  }

  function StoredGrant(g: Grant): Json {
    match g
    case GroupGrant(groupId) =>
      JObj([("kind", JStr("group_membership")), ("groupId", OptionalText(groupId)), ("target", JNull)])
    case TargetGrant(target) =>
      JObj([("kind", JStr("target_account")), ("groupId", JNull), ("target", OptionalText(target))])
  }

  function StoredConditions(cs: seq<Condition>): (stored: seq<Json>)
    ensures |stored| == |cs|
  {
    if cs == [] then [] else [StoredCondition(cs[0])] + StoredConditions(cs[1..])
  }

  function StoredGrants(gs: seq<Grant>): (stored: seq<Json>)
    ensures |stored| == |gs|
  {
    if gs == [] then [] else [StoredGrant(gs[0])] + StoredGrants(gs[1..])
  }

  /** The draft column's value. */
  function Stored(d: Definition): Json {
    JObj([("conditions", JArr(StoredConditions(d.conditions))), ("grants", JArr(StoredGrants(d.grants)))])
  }

  predicate ValidCondition(c: Condition) {
    0 < |c.field| <= MAX_FIELD && NUL !in c.field && c.operator in OPERATORS && NulFree(c.value)
  }

  predicate ValidGrant(g: Grant) {
    match g
    case GroupGrant(groupId) => groupId.Some?
    case TargetGrant(target) => target.Some? && target.value in ALL_CONNECTOR_TARGETS
  }

  predicate ValidDefinition(d: Definition) {
    && |d.conditions| <= MAX_CONDITIONS && |d.grants| <= MAX_GRANTS
    && (forall c | c in d.conditions :: ValidCondition(c))
    && (forall g | g in d.grants :: ValidGrant(g))
  }

  lemma PropertyOfMore(members: seq<(string, Json)>, last: (string, Json), name: string)
    ensures Property(members + [last], name) == if last.0 == name then last.1 else Property(members, name)
  {
    assert (members + [last])[..|members|] == members;
  }

  lemma PropertyOfThree(a: (string, Json), b: (string, Json), c: (string, Json), name: string)
    ensures Property([a, b, c], name)
      == if c.0 == name then c.1 else if b.0 == name then b.1 else if a.0 == name then a.1 else JNull
  {
    assert [a, b, c] == [] + [a] + [b] + [c];
    PropertyOfMore([] + [a] + [b], c, name);
    PropertyOfMore([] + [a], b, name);
    PropertyOfMore([], a, name);
  }

  lemma NamesDiffer()
    ensures "field" != "operator" && "field" != "value" && "operator" != "value"
    ensures "kind" != "groupId" && "kind" != "target" && "groupId" != "target"
    ensures "conditions" != "grants" && "group_membership" != "target_account"
  {
    assert "field"[0] == 'f' && "operator"[0] == 'o' && "value"[0] == 'v';
    assert "kind"[0] == 'k' && "groupId"[0] == 'g' && "target"[0] == 't';
    assert "conditions"[0] == 'c' && "grants"[0] == 'g' && "group_membership"[0] == 'g' && "target_account"[0] == 't';
  }

  lemma ConditionReadsBack(c: Condition)
    ensures ParseCondition(StoredCondition(c)) == if ValidCondition(c) then Some(c) else None
  {
    NamesDiffer();
    var f, o, v := ("field", JStr(c.field)), ("operator", JStr(c.operator)), ("value", c.value);
    PropertyOfThree(f, o, v, "field");
    PropertyOfThree(f, o, v, "operator");
    PropertyOfThree(f, o, v, "value");
  }

  lemma GrantReadsBack(g: Grant)
    ensures ParseGrant(StoredGrant(g)) == if ValidGrant(g) then Some(g) else None
  {
    NamesDiffer();
    var members := StoredGrant(g).members;
    var k, i, t := members[0], members[1], members[2];
    assert members == [k, i, t];
    PropertyOfThree(k, i, t, "kind");
    PropertyOfThree(k, i, t, "groupId");
    PropertyOfThree(k, i, t, "target");
  }

  lemma {:induction false} ConditionsReadBack(cs: seq<Condition>)
    ensures ParseConditions(StoredConditions(cs)) == if forall c | c in cs :: ValidCondition(c) then Some(cs) else None
  {
    if cs != [] {
      ConditionsReadBack(cs[1..]);
      ConditionReadsBack(cs[0]);
      assert StoredConditions(cs)[1..] == StoredConditions(cs[1..]);
      assert cs == [cs[0]] + cs[1..];
    }
  }

  lemma {:induction false} GrantsReadBack(gs: seq<Grant>)
    ensures ParseGrants(StoredGrants(gs)) == if forall g | g in gs :: ValidGrant(g) then Some(gs) else None
  {
    if gs != [] {
      GrantsReadBack(gs[1..]);
      GrantReadsBack(gs[0]);
      assert StoredGrants(gs)[1..] == StoredGrants(gs[1..]);
      assert gs == [gs[0]] + gs[1..];
    }
  }

  /** A stored definition reads back as itself exactly when it is valid, and is refused otherwise. */
  lemma StoredReadsBack(d: Definition)
    ensures ParseDefinition(Stored(d)) == if ValidDefinition(d) then Some(d) else None
  {
    NamesDiffer();
    var c, g := Stored(d).members[0], Stored(d).members[1];
    assert Stored(d).members == [] + [c] + [g];
    PropertyOfMore([] + [c], g, "conditions");
    PropertyOfMore([], c, "conditions");
    PropertyOfMore([] + [c], g, "grants");
    assert Property(Stored(d).members, "conditions") == c.1 && Property(Stored(d).members, "grants") == g.1;
    ConditionsReadBack(d.conditions);
    GrantsReadBack(d.grants);
  }

  lemma {:induction false} ParsedConditionsValid(entries: seq<Json>)
    ensures var cs := ParseConditions(entries);
      cs.Some? ==> |cs.value| == |entries| && forall c | c in cs.value :: ValidCondition(c)
  {
    if entries != [] {
      ParsedConditionsValid(entries[1..]);
    }
  }

  lemma {:induction false} ParsedGrantsValid(entries: seq<Json>)
    ensures var gs := ParseGrants(entries);
      gs.Some? ==> |gs.value| == |entries| && forall g | g in gs.value :: ValidGrant(g)
  {
    if entries != [] {
      ParsedGrantsValid(entries[1..]);
    }
  }

  /** A draft accepted when it is saved is accepted, unchanged, when it is read again to be published. */
  lemma AcceptedDraftReparses(input: Json)
    ensures var d := ParseDefinition(input);
      d.Some? ==> ValidDefinition(d.value) && ParseDefinition(Stored(d.value)) == d
  {
    var d := ParseDefinition(input);
    if d.Some? {
      ParsedConditionsValid(Property(input.members, "conditions").items);
      ParsedGrantsValid(Property(input.members, "grants").items);
      StoredReadsBack(d.value);
    }
  }

  // ---------------------------------------------------------------- the hash

  /** The library functions the hash is made of: the JSON text of one condition and of one grant, and
      the digest of the two sorted lists. */
  datatype Encoding = Encoding(
    condition: Condition -> string, grant: Grant -> string, digest: (seq<string>, seq<string>) -> string)

  /** JSON text determines its value, and the digest has no collisions. */
  ghost predicate Injective(e: Encoding) {
    && (forall a, b :: e.condition(a) == e.condition(b) ==> a == b)
    && (forall a, b :: e.grant(a) == e.grant(b) ==> a == b)
    && (forall c, g, c', g' :: e.digest(c, g) == e.digest(c', g') ==> c == c' && g == g')
  }

  function HashDefinition(e: Encoding, d: Definition): string {
    e.digest(Sort(Mapped(e.condition, d.conditions)), Sort(Mapped(e.grant, d.grants)))
  }

  predicate Permuted(a: Definition, b: Definition) {
    multiset(a.conditions) == multiset(b.conditions) && multiset(a.grants) == multiset(b.grants)
  }

  /** Two definitions hash alike exactly when their conditions and their grants are permutations. */
  lemma HashAlikeIffPermuted(e: Encoding, a: Definition, b: Definition)
    requires Injective(e)
    ensures HashDefinition(e, a) == HashDefinition(e, b) <==> Permuted(a, b)
  {
    SortedAlikeIffPermuted(Mapped(e.condition, a.conditions), Mapped(e.condition, b.conditions));
    SortedAlikeIffPermuted(Mapped(e.grant, a.grants), Mapped(e.grant, b.grants));
    MappedAlikeIffPermuted(e.condition, a.conditions, b.conditions);
    MappedAlikeIffPermuted(e.grant, a.grants, b.grants);
  }

  /** Definitions that hash alike mean the same: for every person, every exception list and every time
      the role is known, held and held by the same route alike, and it grants the same. */
  lemma PermutedMeansTheSame(a: Definition, b: Definition, role: Role, user: User, now: int)
    requires Permuted(a, b)
    ensures var x, y := HoldOf(WithDraft(role, a), user, now), HoldOf(WithDraft(role, b), user, now);
      x == y || (x.HoldUnknown? && y.HoldUnknown?)
    ensures GroupsOf(a.grants) == GroupsOf(b.grants) && TargetsOf(a.grants) == TargetsOf(b.grants)
    ensures AccessFrom(WithDraft(role, a), user, now) == AccessFrom(WithDraft(role, b), user, now)
  {
    MemberOfEqual(a.conditions, b.conditions);
    MemberOfEqual(a.grants, b.grants);
    EvaluateMeaning(a.conditions, user);
    EvaluateMeaning(b.conditions, user);
  }

  /** Only the reason given for not knowing may differ: the first condition that cannot be answered is
      the one named. */
  lemma ReasonFollowsTheOrder(user: User)
    ensures var p, q := Condition("status", "x", JNull), Condition("status", "y", JNull);
      && Permuted(Definition([p, q], []), Definition([q, p], []))
      && Evaluate([p, q], user) == Unknown(UnknownOperator("x"))
      && Evaluate([q, p], user) == Unknown(UnknownOperator("y"))
  {
    var p, q := Condition("status", "x", JNull), Condition("status", "y", JNull);
    assert [p, q] == [p] + [q] && [q, p] == [q] + [p];
    assert multiset([p, q]) == multiset{p, q} == multiset([q, p]);
    assert "x"[0] == 'x' && "y"[0] == 'y';
    assert "equals"[0] == 'e' && "not_equals"[0] == 'n' && "in"[0] == 'i' && "in_org_subtree"[0] == 'i';
  }
}
