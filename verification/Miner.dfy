/**
 * Role mining: candidate formulas for the groups that have been handed out by hand, from the attributes
 * and the org units of the people who hold them.
 */
module Miner {
  import opened Common
  import opened Evaluator
  import opened Ordering

  const CONDITION_FIELDS := ["jobTitle", "location", "status", "orgUnitId"]
  const MAX_PAIR_SOURCES: nat := 24

  datatype Params = Params(minPrecision: real, minCoverage: real, maxCandidates: int)

  datatype Membership = Membership(groupId: GroupId, userId: UserId)

  datatype Candidate = Candidate(
    conditions: seq<Condition>, precision: real, coverage: real, score: real,
    cohortSize: nat, matchedCount: nat, gained: set<UserId>, lost: set<UserId>)

  datatype GroupResult = GroupResult(groupId: GroupId, memberCount: nat, candidates: seq<Candidate>)

  /** Conditions are identified by their JSON text. */
  type KeyOf = Condition -> string

  ghost predicate Injective(keyOf: KeyOf) {
    forall a, b :: keyOf(a) == keyOf(b) ==> a == b
  }

  predicate Valid(params: Params) {
    0.0 <= params.minPrecision <= 1.0 && 0.0 <= params.minCoverage <= 1.0 && params.maxCandidates >= 1
  }

  // ---------------------------------------------------------------- cohorts

  /** The people of the population whom the evaluator matches. */
  function Cohort(conditions: seq<Condition>, users: seq<User>): set<UserId> {
    set u | u in users && Evaluate(conditions, u) == Known(true) :: u.id
  }

  /** The evaluator's own answer for everybody; a refusal would be a defect and stops the mining. */
  method CohortOf(conditions: seq<Condition>, users: seq<User>) returns (cohort: Option<set<UserId>>)
    ensures cohort.None? <==> exists u :: u in users && Evaluate(conditions, u).Unknown?
    ensures cohort.Some? ==> cohort.value == Cohort(conditions, users)
  {
    var matched: set<UserId> := {};
    for i := 0 to |users|
      invariant matched == Cohort(conditions, users[..i])
      invariant forall u | u in users[..i] :: Evaluate(conditions, u).Known?
    {
      assert users[..i + 1] == users[..i] + [users[i]];
      var m := MatchesConditions(conditions, users[i]);
      if m.Unknown? {
        return None;
      }
      if m.matched {
        matched := matched + {users[i].id};
      }
    }
    assert users[..|users|] == users;
    cohort := Some(matched);
  }

  method MembersAlsoIn(small: set<UserId>, large: set<UserId>) returns (both: set<UserId>)
    ensures both == small * large
  {
    both := {};
    var left := small;
    while left != {}
      invariant left <= small && both + left * large == small * large
      decreases |left|
    {
      var id :| id in left;
      left := left - {id};
      if id in large {
        both := both + {id};
      }
    }
  }

  /** Walks the smaller of the two sets. */
  method Intersect(a: set<UserId>, b: set<UserId>) returns (both: set<UserId>)
    ensures both == a * b
  {
    if |a| <= |b| {
      both := MembersAlsoIn(a, b);
    } else {
      both := MembersAlsoIn(b, a);
    }
  }

  // ---------------------------------------------------------------- scores

  /** Precision, coverage and their harmonic mean, and the people a formula would add or not reach. */
  function CandidateOf(conditions: seq<Condition>, matched: nat, cohort: set<UserId>, members: set<UserId>): Candidate
    requires members != {} && cohort != {}
  {
    var precision, coverage := matched as real / |cohort| as real, matched as real / |members| as real;
    var score := if precision + coverage == 0.0 then 0.0 else 2.0 * precision * coverage / (precision + coverage);
    Candidate(conditions, precision, coverage, score, |cohort|, matched, cohort - members, members - cohort)
  }

  function Scored(conditions: seq<Condition>, cohort: set<UserId>, members: set<UserId>): Option<Candidate>
    requires members != {}
  {
    if cohort == {} then None else Some(CandidateOf(conditions, |cohort * members|, cohort, members))
  }

  method CountIn(cohort: set<UserId>, members: set<UserId>) returns (n: nat)
    ensures n == |cohort * members|
  {
    n := 0;
    ghost var counted: set<UserId> := {};
    var left := cohort;
    while left != {}
      invariant left <= cohort && counted == (cohort - left) * members && n == |counted|
      decreases |left|
    {
      var id :| id in left;
      left := left - {id};
      if id in members {
        n := n + 1;
        counted := counted + {id};
      }
    }
    assert counted == cohort * members;
  }

  method ScoreCandidate(conditions: seq<Condition>, cohort: set<UserId>, members: set<UserId>)
    returns (scored: Option<Candidate>)
    requires members != {}
    ensures scored == Scored(conditions, cohort, members)
  {
    if cohort == {} {
      return None;
    }
    var matchedCount := CountIn(cohort, members);
    scored := Some(CandidateOf(conditions, matchedCount, cohort, members));
  }

  /** The matched, gained and lost people of a candidate are a partition of its cohort and of the members. */
  lemma ScoresPartition(conditions: seq<Condition>, cohort: set<UserId>, members: set<UserId>)
    requires members != {} && cohort != {}
    ensures var c := Scored(conditions, cohort, members).value;
      && c.gained !! members && c.lost !! cohort && c.gained !! c.lost
      && c.gained + cohort * members == cohort && c.lost + cohort * members == members
      && c.cohortSize == c.matchedCount + |c.gained| && |members| == c.matchedCount + |c.lost|
  {
    assert cohort == cohort * members + (cohort - members);
    assert members == cohort * members + (members - cohort);
  }

  // ---------------------------------------------------------------- atomic conditions

  predicate IsMineableScalar(value: Json) {
    value.JStr? || value.JNum? || value.JBool?
  }

  /** Every ancestor-or-self of an org-unit path. */
  function PathPrefixes(path: string): seq<string> {
    var labels := Labels(path);
    seq(|labels|, i requires 0 <= i < |labels| => Join(labels[..i + 1]))
  }

  lemma {:induction false} LabelsOfJoin(labels: seq<string>)
    requires |labels| > 0 && forall l | l in labels :: '.' !in l
    ensures Labels(Join(labels)) == labels
  {
    OneLabel(labels[0]);
    if |labels| > 1 {
      LabelsOfJoin(labels[1..]);
      LabelsOfExtension(labels[0], Join(labels[1..]));
      assert [labels[0]] + labels[1..] == labels;
    } else {
      assert labels == [labels[0]];
    }
  }

  lemma {:induction false} OneLabel(l: string)
    requires '.' !in l
    ensures Labels(l) == [l]
  {
    if l != "" {
      OneLabel(l[1..]);
      assert [l[0]] + l[1..] == l;
    }
  }

  lemma {:induction false} LabelsHaveNoDots(path: string)
    ensures forall l | l in Labels(path) :: '.' !in l
  {
    if path != "" {
      LabelsHaveNoDots(path[1..]);
    }
  }

  /** The prefixes tested are exactly the org units the path is at or below. */
  lemma PrefixesAreAncestors(path: string, p: string)
    ensures p in PathPrefixes(path) <==> IsAtOrBelow(path, p)
  {
    var labels := Labels(path);
    SubtreeIsLabelPrefix(path, p);
    LabelsHaveNoDots(path);
    if p in PathPrefixes(path) {
      var i :| 0 <= i < |labels| && p == Join(labels[..i + 1]);
      LabelsOfJoin(labels[..i + 1]);
    }
    if Labels(p) <= labels {
      var n := |Labels(p)|;
      JoinLabels(p);
      assert Labels(p) == labels[..n];
      assert PathPrefixes(path)[n - 1] == Join(labels[..n]);
    }
  }

  predicate IsEqualsAtom(user: User, c: Condition) {
    c.operator == "equals" && c.field in CONDITION_FIELDS
    && ExtractField(c.field, user) == Some(c.value) && IsMineableScalar(c.value)
  }

  predicate IsSubtreeAtom(user: User, c: Condition) {
    c.operator == "in_org_subtree" && c.field == "orgUnitId" && c.value.JStr? && c.value.s != ""
    && IsAtOrBelow(user.orgUnitPath, c.value.s)
  }

  /** The conditions tried because this member meets them. */
  predicate IsAtomOf(user: User, c: Condition) {
    IsEqualsAtom(user, c) || IsSubtreeAtom(user, c)
  }

  lemma FieldsDiffer()
    ensures "equals" != "in_org_subtree" && "equals" in {"equals", "not_equals", "in", "in_org_subtree"}
    ensures forall f | f in CONDITION_FIELDS :: f == "jobTitle" || f == "location" || f == "status" || f == "orgUnitId"
    ensures "in_org_subtree" != "not_equals" && "in_org_subtree" != "in" && "orgUnitId" != "jobTitle"
    ensures "orgUnitId" != "location" && "orgUnitId" != "status"
  {
    assert "equals"[0] == 'e' && "in_org_subtree"[0] == 'i' && "not_equals"[0] == 'n' && |"in"| == 2;
    assert "orgUnitId"[0] == 'o' && "jobTitle"[0] == 'j' && "location"[0] == 'l' && "status"[0] == 's';
  }

  /** The evaluator never refuses a mined condition, for anybody, */
  lemma AtomNeverRefused(member: User, c: Condition, user: User)
    requires IsAtomOf(member, c)
    ensures MatchOne(c, user).Known?
  {
    FieldsDiffer();
  }

  /** and the member it was taken from meets it. */
  lemma AtomMatchesItsMember(member: User, c: Condition)
    requires IsAtomOf(member, c)
    ensures MatchOne(c, member) == Known(true)
  {
    FieldsDiffer();
  }

  // ---------------------------------------------------------------- collecting them

  /** One entry per key, in the order the keys are first met. */
  function AddAtom(atoms: seq<Condition>, c: Condition): (r: seq<Condition>)
    ensures forall x :: x in r <==> x in atoms || x == c
  {
    if c in atoms then atoms else atoms + [c]
  }

  predicate Distinct<T(==)>(list: seq<T>) {
    forall i, j | 0 <= i < j < |list| :: list[i] != list[j]
  }

  method AddEqualsAtoms(user: User, start: seq<Condition>) returns (atoms: seq<Condition>)
    requires Distinct(start)
    ensures Distinct(atoms) && forall c :: c in atoms <==> c in start || IsEqualsAtom(user, c)
  {
    atoms := start;
    for i := 0 to |CONDITION_FIELDS|
      invariant Distinct(atoms)
      invariant forall c :: c in atoms <==> c in start || (IsEqualsAtom(user, c) && c.field in CONDITION_FIELDS[..i])
    {
      var field := CONDITION_FIELDS[i];
      assert CONDITION_FIELDS[..i + 1] == CONDITION_FIELDS[..i] + [field];
      FieldsDiffer();
      var value := ExtractField(field, user).value;
      if !IsMineableScalar(value) {
        continue;
      }
      atoms := AddAtom(atoms, Condition(field, "equals", value));
    }
    assert CONDITION_FIELDS[..|CONDITION_FIELDS|] == CONDITION_FIELDS;
  }

  predicate IsPrefixAtom(prefixes: seq<string>, c: Condition) {
    c.field == "orgUnitId" && c.operator == "in_org_subtree" && c.value.JStr? && c.value.s != "" && c.value.s in prefixes
  }

  method AddSubtreeAtoms(user: User, start: seq<Condition>) returns (atoms: seq<Condition>)
    requires Distinct(start)
    ensures Distinct(atoms) && forall c :: c in atoms <==> c in start || IsSubtreeAtom(user, c)
  {
    var prefixes := PathPrefixes(user.orgUnitPath);
    atoms := start;
    for i := 0 to |prefixes|
      invariant Distinct(atoms)
      invariant forall c :: c in atoms <==> c in start || IsPrefixAtom(prefixes[..i], c)
    {
      assert prefixes[..i + 1] == prefixes[..i] + [prefixes[i]];
      if prefixes[i] == "" {
        continue;
      }
      atoms := AddAtom(atoms, Condition("orgUnitId", "in_org_subtree", JStr(prefixes[i])));
    }
    assert prefixes[..|prefixes|] == prefixes;
    forall c: Condition ensures IsPrefixAtom(prefixes, c) <==> IsSubtreeAtom(user, c) {
      if c.value.JStr? {
        PrefixesAreAncestors(user.orgUnitPath, c.value.s);
      }
    }
  }
}
