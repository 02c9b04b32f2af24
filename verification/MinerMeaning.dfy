/**
 * What a mined candidate's numbers mean, and which parameters are accepted.
 */
module MinerMeaning {
  import opened Common
  import opened Evaluator
  import opened Ordering
  import opened Miner
  import opened MinerSearch

  /** Parameters are refused exactly when a threshold lies outside zero to one or no candidate is asked for. */
  lemma RefusedParams(params: Params)
    ensures !Valid(params) <==>
      || params.minPrecision < 0.0 || params.minPrecision > 1.0
      || params.minCoverage < 0.0 || params.minCoverage > 1.0 || params.maxCandidates <= 0
    ensures Valid(Params(0.0, 0.0, 1)) && Valid(Params(1.0, 1.0, 1))
  {
  }

  lemma ShareOf(part: nat, whole: nat)
    requires whole > 0
    ensures (part as real / whole as real) * whole as real == part as real
  {
  }

  lemma HarmonicMean(p: real, c: real, s: real)
    requires p + c != 0.0 && s == 2.0 * p * c / (p + c)
    ensures s * (p + c) == 2.0 * p * c
  {
    var t := 2.0 * p * c;
    assert s == t / (p + c);
    assert t / (p + c) * (p + c) == t;
  }

  /** Precision is the share of the cohort that are members, coverage the share of the members that are in the
      cohort, and the score their harmonic mean; gained are the others of the cohort, lost the others of the
      members. */
  lemma ScoreMeaning(conditions: seq<Condition>, cohort: set<UserId>, members: set<UserId>)
    requires members != {} && cohort != {}
    ensures var scored := Scored(conditions, cohort, members);
      && scored.Some?
      && var c := scored.value;
         && c.conditions == conditions && c.cohortSize == |cohort| && c.matchedCount == |cohort * members|
         && c.precision * |cohort| as real == |cohort * members| as real
         && c.coverage * |members| as real == |cohort * members| as real
         && (c.precision + c.coverage == 0.0 ==> c.score == 0.0)
         && (c.precision + c.coverage != 0.0 ==> c.score * (c.precision + c.coverage) == 2.0 * c.precision * c.coverage)
         && (forall u :: u in c.gained <==> u in cohort && u !in members)
         && (forall u :: u in c.lost <==> u in members && u !in cohort)
  {
    var c := Scored(conditions, cohort, members).value;
    ShareOf(|cohort * members|, |cohort|);
    ShareOf(|cohort * members|, |members|);
    if c.precision + c.coverage != 0.0 {
      HarmonicMean(c.precision, c.coverage, c.score);
    }
  }

  /** Nobody in the cohort, no score. */
  lemma EmptyCohortIsNotScored(conditions: seq<Condition>, members: set<UserId>)
    requires members != {}
    ensures Scored(conditions, {}, members) == None
  {
  }

  /** A reported candidate reaches both thresholds, each with its own number. */
  lemma ReportedReachThresholds(
    keyOf: KeyOf, params: Params, users: seq<User>, members: set<UserId>, memberUsers: set<User>, atoms: seq<Condition>,
    c: Candidate)
    requires members != {} && DistinctIds(users) && Valid(params) && IsAtomics(keyOf, memberUsers, atoms)
    requires c in Reported(keyOf, params, users, members, atoms)
    ensures params.minPrecision <= c.precision && params.minCoverage <= c.coverage
    ensures forall u | u in users ::
      u.id in c.gained <==> u.id !in members && Evaluate(c.conditions, u) == Known(true)
    ensures forall m | m in members ::
      m in c.lost <==> !exists u :: u in users && u.id == m && Evaluate(c.conditions, u) == Known(true)
  {
    ReportedAreFaithfulAndUnbeaten(keyOf, params, users, members, memberUsers, atoms, c);
    var cohort := Cohort(c.conditions, users);
    ScoreMeaning(c.conditions, cohort, members);
    forall u | u in users ensures u.id in cohort <==> Evaluate(c.conditions, u) == Known(true) {
      if u.id in cohort {
        var v :| v in users && Evaluate(c.conditions, v) == Known(true) && v.id == u.id;
      }
    }
  }

  // ---------------------------------------------------------------- orders

  /** `before` decides by `le`, which is transitive. */
  ghost predicate DecidesBy<T(!new)>(before: (T, T) -> bool, le: (T, T) -> bool) {
    && (forall a, b :: if before(a, b) then le(a, b) else le(b, a))
    && (forall a, b, c {:trigger le(a, b), le(b, c)} :: le(a, b) && le(b, c) ==> le(a, c))
  }

  ghost predicate InOrder<T>(le: (T, T) -> bool, list: seq<T>) {
    forall i, j {:trigger le(list[i], list[j])} | 0 <= i < j < |list| :: le(list[i], list[j])
  }

  lemma {:induction false} InsertKeepsOrder<T(!new)>(before: (T, T) -> bool, le: (T, T) -> bool, x: T, list: seq<T>)
    requires DecidesBy(before, le) && InOrder(le, list)
    ensures InOrder(le, InsertBy(before, x, list))
  {
    if list != [] {
      var head, rest := list[0], list[1..];
      assert InOrder(le, rest) by {
        forall i, j | 0 <= i < j < |rest| ensures le(rest[i], rest[j]) {
          assert le(list[i + 1], list[j + 1]);
        }
      }
      if before(x, head) {
        FrontInOrder(le, x, list);
      } else {
        InsertKeepsOrder(before, le, x, rest);
        var r := InsertBy(before, x, rest);
        forall j | 0 <= j < |r| ensures le(head, r[j]) {
          assert r[j] in multiset(r);
          if r[j] != x {
            assert r[j] in rest;
            var k :| 0 <= k < |rest| && rest[k] == r[j];
            assert le(list[0], list[k + 1]);
          }
        }
        HeadInOrder(le, head, r);
      }
    }
  }

  lemma HeadInOrder<T(!new)>(le: (T, T) -> bool, head: T, list: seq<T>)
    requires InOrder(le, list) && forall j | 0 <= j < |list| :: le(head, list[j])
    ensures InOrder(le, [head] + list)
  {
    var all := [head] + list;
    forall i, j | 0 <= i < j < |all| ensures le(all[i], all[j]) {
      if i > 0 {
        assert le(list[i - 1], list[j - 1]);
      }
    }
  }

  lemma FrontInOrder<T(!new)>(le: (T, T) -> bool, x: T, list: seq<T>)
    requires list != [] && InOrder(le, list) && le(x, list[0])
    requires forall a, b, c {:trigger le(a, b), le(b, c)} :: le(a, b) && le(b, c) ==> le(a, c)
    ensures InOrder(le, [x] + list)
  {
    forall j | 0 <= j < |list| ensures le(x, list[j]) {
      if j > 0 {
        assert le(list[0], list[j]);
      }
    }
    HeadInOrder(le, x, list);
  }

  lemma {:induction false} SortPutsInOrder<T(!new)>(before: (T, T) -> bool, le: (T, T) -> bool, list: seq<T>)
    requires DecidesBy(before, le)
    ensures InOrder(le, SortBy(before, list))
  {
    if list != [] {
      SortPutsInOrder(before, le, list[1..]);
      InsertKeepsOrder(before, le, list[0], SortBy(before, list[1..]));
    }
  }

  /** More members matched first; the smaller key among equals. */
  predicate OverlapsMore(keyOf: KeyOf, a: Feasible, b: Feasible) {
    a.matchedCount > b.matchedCount
    || (a.matchedCount == b.matchedCount && AtMost(keyOf(a.condition), keyOf(b.condition)))
  }

  /** The conditions to be paired come in that order. */
  lemma SourcesInOrder(
    keyOf: KeyOf, params: Params, users: seq<User>, members: set<UserId>, atoms: seq<Condition>, i: nat, j: nat)
    requires members != {} && i < j < |PairSources(keyOf, params, users, members, atoms)|
    ensures var sources := PairSources(keyOf, params, users, members, atoms);
      OverlapsMore(keyOf, sources[i], sources[j])
  {
    var le := (a: Feasible, b: Feasible) => OverlapsMore(keyOf, a, b);
    forall a: Feasible, b: Feasible ensures if ByOverlap(keyOf)(a, b) then le(a, b) else le(b, a) {
      Total(keyOf(a.condition), keyOf(b.condition));
    }
    forall a: Feasible, b: Feasible, c: Feasible | le(a, b) && le(b, c) ensures le(a, c) {
      if a.matchedCount == b.matchedCount == c.matchedCount {
        Transitive(keyOf(a.condition), keyOf(b.condition), keyOf(c.condition));
      }
    }
    var sorted := SortBy(ByOverlap(keyOf), FeasibleIn(params, users, members, atoms));
    SortPutsInOrder(ByOverlap(keyOf), le, FeasibleIn(params, users, members, atoms));
    assert le(sorted[i], sorted[j]);
  }

  /** The higher score first; among equals the shorter formula, and among those the smaller key. */
  predicate RanksBefore(keyOf: KeyOf, a: Candidate, b: Candidate) {
    || a.score > b.score
    || (a.score == b.score && |a.conditions| < |b.conditions|)
    || (a.score == b.score && |a.conditions| == |b.conditions|
        && AtMost(CandidateKey(keyOf, a.conditions), CandidateKey(keyOf, b.conditions)))
  }

  /** The key of a formula is the key of its condition, or both keys with a NUL between. */
  lemma CandidateKeyMeaning(keyOf: KeyOf, a: Condition, b: Condition)
    ensures CandidateKey(keyOf, [a]) == keyOf(a)
    ensures CandidateKey(keyOf, [a, b]) == keyOf(a) + ['\0'] + keyOf(b)
  {
    assert [a, b][1..] == [b];
  }

  /** The reported candidates come in that order. */
  lemma ReportedInOrder(
    keyOf: KeyOf, params: Params, users: seq<User>, members: set<UserId>, atoms: seq<Condition>, i: nat, j: nat)
    requires members != {} && params.maxCandidates >= 1 && i < j < |Reported(keyOf, params, users, members, atoms)|
    ensures var reported := Reported(keyOf, params, users, members, atoms);
      RanksBefore(keyOf, reported[i], reported[j])
  {
    var le := (a: Candidate, b: Candidate) => RanksBefore(keyOf, a, b);
    forall a: Candidate, b: Candidate ensures if ByRank(keyOf)(a, b) then le(a, b) else le(b, a) {
      Total(CandidateKey(keyOf, a.conditions), CandidateKey(keyOf, b.conditions));
    }
    forall a: Candidate, b: Candidate, c: Candidate | le(a, b) && le(b, c) ensures le(a, c) {
      RankTransitive(keyOf, a, b, c);
    }
    var accepted := Accepted(keyOf, params, users, members, atoms);
    var sorted := SortBy(ByRank(keyOf), Unbeaten(accepted, accepted));
    SortPutsInOrder(ByRank(keyOf), le, Unbeaten(accepted, accepted));
    assert le(sorted[i], sorted[j]);
  }

  lemma RankTransitive(keyOf: KeyOf, a: Candidate, b: Candidate, c: Candidate)
    requires RanksBefore(keyOf, a, b) && RanksBefore(keyOf, b, c)
    ensures RanksBefore(keyOf, a, c)
  {
    if a.score == b.score == c.score && |a.conditions| == |b.conditions| == |c.conditions| {
      Transitive(CandidateKey(keyOf, a.conditions), CandidateKey(keyOf, b.conditions), CandidateKey(keyOf, c.conditions));
    }
  }

  /** A pair is both conditions, the smaller key first. */
  lemma PairInKeyOrder(keyOf: KeyOf, a: Condition, b: Condition)
    ensures var p := OrderedPair(keyOf, a, b);
      |p| == 2 && multiset(p) == multiset{a, b} && AtMost(keyOf(p[0]), keyOf(p[1]))
  {
    Total(keyOf(a), keyOf(b));
  }

  // ---------------------------------------------------------------- what is reported

  /** A shorter formula that is at least as precise and at least as covering. */
  predicate MakesPointless(other: Candidate, c: Candidate) {
    && |other.conditions| < |c.conditions|
    && other.precision - c.precision >= 0.0 && other.coverage - c.coverage >= 0.0
  }

  /** No accepted candidate makes this one pointless. */
  ghost predicate Unrivalled(accepted: seq<Candidate>, c: Candidate) {
    forall other | other in accepted :: !MakesPointless(other, c)
  }

  /** Of the accepted candidates exactly those are reported that no accepted shorter one makes pointless, as far
      as the limit allows. */
  lemma ReportedAreUnbeaten(
    keyOf: KeyOf, params: Params, users: seq<User>, members: set<UserId>, atoms: seq<Condition>, c: Candidate)
    requires members != {} && params.maxCandidates >= 1
    ensures var accepted, reported :=
        Accepted(keyOf, params, users, members, atoms), Reported(keyOf, params, users, members, atoms);
      && |reported| <= params.maxCandidates
      && (c in reported ==> c in accepted && Unrivalled(accepted, c))
      && (c in accepted && Unrivalled(accepted, c) ==> c in reported || |reported| == params.maxCandidates)
  {
    var accepted := Accepted(keyOf, params, users, members, atoms);
    var kept := Unbeaten(accepted, accepted);
    var sorted := SortBy(ByRank(keyOf), kept);
    SortKeeps(ByRank(keyOf), kept);
    BeatenMeaning(accepted, c);
    FirstOfMeaning(sorted, params.maxCandidates, c);
    assert c in kept <==> c in accepted && !Beaten(accepted, c);
    assert c in sorted <==> c in kept;
  }

  lemma FirstOfMeaning<T>(list: seq<T>, n: nat, x: T)
    ensures |FirstOf(list, n)| <= n && (x in FirstOf(list, n) ==> x in list)
    ensures x in list ==> x in FirstOf(list, n) || |FirstOf(list, n)| == n
  {
  }

  lemma BeatenMeaning(accepted: seq<Candidate>, c: Candidate)
    ensures Beaten(accepted, c) <==> !Unrivalled(accepted, c)
  {
    forall other ensures MakesPointless(other, c) <==> Beats(other, c) {
    }
    if Beaten(accepted, c) {
      var i :| 0 <= i < |accepted| && Beats(accepted[i], c);
      assert accepted[i] in accepted && MakesPointless(accepted[i], c);
    }
    if !Unrivalled(accepted, c) {
      var other :| other in accepted && MakesPointless(other, c);
      var i :| 0 <= i < |accepted| && accepted[i] == other;
    }
  }
}
