/**
 * What the parser of a draft lets through: no string anywhere holds a NUL, and what is stored names every
 * member it should.
 */
module DraftHashMeaning {
  import opened Common
  import opened Evaluator
  import opened Simulation
  import opened DraftHash

  /** Every text in a value, at any depth: strings and the names of members. */
  function Texts(v: Json): set<string>
    decreases v
  {
    match v
    case JStr(s) => {s}
    case JArr(items) => ItemTexts(items)
    case JObj(members) => MemberTexts(members)
    case _ => {}
  }

  function ItemTexts(items: seq<Json>): set<string>
    decreases items
  {
    if items == [] then {} else Texts(items[0]) + ItemTexts(items[1..])
  }

  function MemberText(member: (string, Json)): set<string>
    decreases member
  {
    {member.0} + Texts(member.1)
  }

  function MemberTexts(members: seq<(string, Json)>): set<string>
    decreases members
  {
    if members == [] then {} else MemberText(members[0]) + MemberTexts(members[1..])
  }

  /** The scan lets a value through exactly when no text in it holds a NUL. */
  lemma {:induction false} NulFreeMeaning(v: Json)
    ensures NulFree(v) <==> forall s | s in Texts(v) :: NUL !in s
    decreases v
  {
    match v
    case JArr(items) => ItemsMeaning(items);
    case JObj(members) => MembersMeaning(members);
    case _ =>
  }

  lemma {:induction false} ItemsMeaning(items: seq<Json>)
    ensures (forall i | 0 <= i < |items| :: NulFree(items[i])) <==> forall s | s in ItemTexts(items) :: NUL !in s
    decreases items
  {
    if items != [] {
      NulFreeMeaning(items[0]);
      ItemsMeaning(items[1..]);
      assert forall i | 1 <= i < |items| :: items[i] == items[1..][i - 1];
      assert (forall i | 0 <= i < |items| :: NulFree(items[i])) <==>
        NulFree(items[0]) && forall i | 0 <= i < |items[1..]| :: NulFree(items[1..][i]) by {
        if NulFree(items[0]) && forall i | 0 <= i < |items[1..]| :: NulFree(items[1..][i]) {
          forall i | 0 <= i < |items| ensures NulFree(items[i]) {
            assert i > 0 ==> items[i] == items[1..][i - 1];
          }
        }
      }
    }
  }

  predicate MemberFree(member: (string, Json)) {
    NUL !in member.0 && NulFree(member.1)
  }

  lemma {:induction false} MemberMeaning(member: (string, Json))
    ensures MemberFree(member) <==> forall s | s in MemberText(member) :: NUL !in s
    decreases member
  {
    NulFreeMeaning(member.1);
  }

  lemma {:induction false} MembersMeaning(members: seq<(string, Json)>)
    ensures (forall i | 0 <= i < |members| :: NUL !in members[i].0 && NulFree(members[i].1)) <==>
      forall s | s in MemberTexts(members) :: NUL !in s
    decreases members
  {
    if members != [] {
      MemberMeaning(members[0]);
      MembersMeaning(members[1..]);
      assert (forall i | 0 <= i < |members| :: NUL !in members[i].0 && NulFree(members[i].1)) <==>
        MemberFree(members[0]) && forall i | 0 <= i < |members[1..]| :: NUL !in members[1..][i].0 && NulFree(members[1..][i].1) by {
        if MemberFree(members[0]) && forall i | 0 <= i < |members[1..]| :: NUL !in members[1..][i].0 && NulFree(members[1..][i].1) {
          forall i | 0 <= i < |members| ensures NUL !in members[i].0 && NulFree(members[i].1) {
            assert i > 0 ==> members[i] == members[1..][i - 1];
          }
        }
        assert forall i | 0 <= i < |members[1..]| :: members[1..][i] == members[i + 1];
      }
    }
  }

  /** An accepted draft holds no NUL in the field or the value of any condition. */
  lemma AcceptedHoldsNoNul(input: Json, c: Condition)
    requires ParseDefinition(input).Some? && c in ParseDefinition(input).value.conditions
    ensures NUL !in c.field && forall s | s in Texts(c.value) :: NUL !in s
  {
    AcceptedDraftReparses(input);
    NulFreeMeaning(c.value);
    assert ValidCondition(c);
  }

  /** A stored grant names its kind, its group and its target, the one that does not apply as null. */
  lemma StoredGrantMembers(g: Grant)
    ensures var members := StoredGrant(g).members;
      && |members| == 3 && members[0].0 == "kind" && members[1].0 == "groupId" && members[2].0 == "target"
      && (g.GroupGrant? ==> members[2].1 == JNull) && (g.TargetGrant? ==> members[1].1 == JNull)
  {
  }
}
