/**
 * The search over mined conditions: single conditions, pairs of them, and the candidates that survive
 * the thresholds, the pruning and the ranking.
 */
module MinerSearch {
  import opened Common
  import opened Evaluator
  import opened Ordering
  import opened Miner

  // ---------------------------------------------------------------- sorting

  function InsertBy<T>(before: (T, T) -> bool, x: T, list: seq<T>): (r: seq<T>)
    ensures multiset(r) == multiset{x} + multiset(list)
  {
    if list == [] then [x]
    else
      assert list == [list[0]] + list[1..];
      if before(x, list[0]) then [x] + list else [list[0]] + InsertBy(before, x, list[1..])
  }

  /** The list in order. */
  function SortBy<T>(before: (T, T) -> bool, list: seq<T>): (r: seq<T>)
    ensures multiset(r) == multiset(list)
  {
    if list == [] then []
    else
      assert list == [list[0]] + list[1..];
      InsertBy(before, list[0], SortBy(before, list[1..]))
  }

  lemma SortKeeps<T>(before: (T, T) -> bool, list: seq<T>)
    ensures |SortBy(before, list)| == |list| && forall x :: x in SortBy(before, list) <==> x in list
  {
    MemberOfEqual(SortBy(before, list), list);
  }

  function FirstOf<T>(list: seq<T>, n: nat): seq<T> {
    if |list| <= n then list else list[..n]
  }

  /** `before` puts the larger measure first. */
  ghost predicate PutsLargerFirst<T(!new)>(before: (T, T) -> bool, measure: T -> real) {
    forall a, b :: if before(a, b) then measure(a) >= measure(b) else measure(b) >= measure(a)
  }

  ghost predicate Descending<T>(measure: T -> real, list: seq<T>) {
    forall i, j {:trigger measure(list[i]), measure(list[j])} | 0 <= i < j < |list| :: measure(list[i]) >= measure(list[j])
  }

  lemma {:induction false} InsertDescends<T(!new)>(before: (T, T) -> bool, measure: T -> real, x: T, list: seq<T>)
    requires PutsLargerFirst(before, measure) && Descending(measure, list)
    ensures Descending(measure, InsertBy(before, x, list))
  {
    if list != [] {
      var head, rest := list[0], list[1..];
      assert Descending(measure, rest) by {
        assert forall i | 0 <= i < |rest| :: rest[i] == list[i + 1];
      }
      if before(x, head) {
        assert forall j | 0 <= j < |list| :: measure(list[j]) <= measure(head) <= measure(x);
      } else {
        InsertDescends(before, measure, x, rest);
        var r := InsertBy(before, x, rest);
        forall j | 0 <= j < |r| ensures measure(r[j]) <= measure(head) {
          assert r[j] in multiset(r);
          if r[j] != x {
            assert r[j] in rest;
            var k :| 0 <= k < |rest| && rest[k] == r[j];
            assert measure(list[0]) >= measure(list[k + 1]);
          }
        }
      }
    }
  }

  lemma {:induction false} SortDescends<T(!new)>(before: (T, T) -> bool, measure: T -> real, list: seq<T>)
    requires PutsLargerFirst(before, measure)
    ensures Descending(measure, SortBy(before, list))
  {
    if list != [] {
      SortDescends(before, measure, list[1..]);
      InsertDescends(before, measure, list[0], SortBy(before, list[1..]));
    }
  }

  /** What is kept of a sorted list measures at least as much as what is cut. */
  lemma KeptAreLargest<T(!new)>(before: (T, T) -> bool, measure: T -> real, list: seq<T>, n: nat, kept: T, cut: T)
    requires PutsLargerFirst(before, measure)
    requires kept in FirstOf(SortBy(before, list), n) && cut in list && cut !in FirstOf(SortBy(before, list), n)
    ensures measure(kept) >= measure(cut)
  {
    SortDescends(before, measure, list);
    SortKeeps(before, list);
    var sorted := SortBy(before, list);
    var i :| 0 <= i < |FirstOf(sorted, n)| && FirstOf(sorted, n)[i] == kept;
    assert cut in sorted;
    var j :| 0 <= j < |sorted| && sorted[j] == cut;
    assert j >= n && i < n;
    assert measure(sorted[i]) >= measure(sorted[j]);
  }

  // ---------------------------------------------------------------- atomic conditions of a group

  /** The atoms of the members, each once, in the order of their keys. */
  ghost predicate IsAtomics(keyOf: KeyOf, memberUsers: set<User>, atoms: seq<Condition>) {
    && Distinct(atoms) && Sorted(Mapped(keyOf, atoms))
    && forall c :: c in atoms <==> AtomOfSome(memberUsers, c)
  }

  ghost predicate AtomOfSome(memberUsers: set<User>, c: Condition) {
    exists u :: u in memberUsers && IsAtomOf(u, c)
  }

  lemma AtomOfOneMore(done: set<User>, user: User, c: Condition)
    ensures AtomOfSome(done + {user}, c) <==> AtomOfSome(done, c) || IsAtomOf(user, c)
  {
    if AtomOfSome(done, c) {
      var u :| u in done && IsAtomOf(u, c);
      assert u in done + {user};
    }
    if IsAtomOf(user, c) {
      assert user in done + {user};
    }
  }

  /** The condition with a key. */
  function WithKey(keyOf: KeyOf, atoms: seq<Condition>, key: string): (c: Condition)
    requires key in Mapped(keyOf, atoms)
    ensures c in atoms && keyOf(c) == key
  {
    if keyOf(atoms[0]) == key then atoms[0]
    else
      assert Mapped(keyOf, atoms)[1..] == Mapped(keyOf, atoms[1..]);
      WithKey(keyOf, atoms[1..], key)
  }

  /** The conditions in the order of their keys. */
  function InKeyOrder(keyOf: KeyOf, atoms: seq<Condition>): (r: seq<Condition>)
    ensures |r| == |atoms| && Mapped(keyOf, r) == Sort(Mapped(keyOf, atoms))
  {
    var keys := Sort(Mapped(keyOf, atoms));
    MemberOfEqual(keys, Mapped(keyOf, atoms));
    seq(|keys|, i requires 0 <= i < |keys| => assert keys[i] in keys; WithKey(keyOf, atoms, keys[i]))
  }

  lemma MappedHas<T>(f: T -> string, list: seq<T>, t: string)
    ensures t in Mapped(f, list) <==> exists x :: x in list && f(x) == t
  {
    if t in Mapped(f, list) {
      var i :| 0 <= i < |list| && Mapped(f, list)[i] == t;
      assert list[i] in list;
    }
    if x :| x in list && f(x) == t {
      var i :| 0 <= i < |list| && list[i] == x;
      assert Mapped(f, list)[i] == t;
    }
  }

  lemma MappedDistinct(keyOf: KeyOf, list: seq<Condition>)
    requires Injective(keyOf)
    ensures Distinct(list) <==> Distinct(Mapped(keyOf, list))
  {
    if Distinct(Mapped(keyOf, list)) {
      forall i, j | 0 <= i < j < |list| ensures list[i] != list[j] {
        assert Mapped(keyOf, list)[i] != Mapped(keyOf, list)[j];
      }
    }
  }

  lemma InKeyOrderKeeps(keyOf: KeyOf, atoms: seq<Condition>)
    requires Injective(keyOf) && Distinct(atoms)
    ensures Distinct(InKeyOrder(keyOf, atoms)) && Sorted(Mapped(keyOf, InKeyOrder(keyOf, atoms)))
    ensures forall c :: c in InKeyOrder(keyOf, atoms) <==> c in atoms
  {
    var r, keys := InKeyOrder(keyOf, atoms), Mapped(keyOf, atoms);
    SortSorted(keys);
    MappedDistinct(keyOf, atoms);
    DistinctByCount(keys, Sort(keys));
    MappedDistinct(keyOf, r);
    MemberOfEqual(Sort(keys), keys);
    forall c ensures c in r <==> c in atoms {
      MappedHas(keyOf, r, keyOf(c));
      MappedHas(keyOf, atoms, keyOf(c));
    }
  }

  lemma {:induction false} SameMembersSameCount<T>(a: seq<T>, b: seq<T>)
    requires Distinct(a) && Distinct(b) && forall x :: x in a <==> x in b
    ensures multiset(a) == multiset(b)
  {
    forall x ensures multiset(a)[x] == multiset(b)[x] {
      OnceIn(a, x);
      OnceIn(b, x);
      assert x in a <==> x in multiset(a);
      assert x in b <==> x in multiset(b);
    }
  }

  /** There is only one such list, however the members were listed. */
  lemma AtomicsUnique(keyOf: KeyOf, memberUsers: set<User>, a: seq<Condition>, b: seq<Condition>)
    requires Injective(keyOf) && IsAtomics(keyOf, memberUsers, a) && IsAtomics(keyOf, memberUsers, b)
    ensures a == b
  {
    SameMembersSameCount(a, b);
    MappedAlikeIffPermuted(keyOf, a, b);
    SortedUnique(Mapped(keyOf, a), Mapped(keyOf, b));
    MemberOfEqual(a, b);
    forall i | 0 <= i < |a| ensures a[i] == b[i] {
      assert Mapped(keyOf, a)[i] == Mapped(keyOf, b)[i];
    }
  }

  method AtomicCandidatesFor(keyOf: KeyOf, memberUsers: seq<User>) returns (atoms: seq<Condition>)
    requires Injective(keyOf)
    ensures IsAtomics(keyOf, (set u | u in memberUsers), atoms)
  {
    var found: seq<Condition> := [];
    ghost var done: set<User> := {};
    for i := 0 to |memberUsers|
      invariant done == set u | u in memberUsers[..i]
      invariant Distinct(found) && forall c :: c in found <==> AtomOfSome(done, c)
    {
      assert memberUsers[..i + 1] == memberUsers[..i] + [memberUsers[i]];
      found := AddEqualsAtoms(memberUsers[i], found);
      found := AddSubtreeAtoms(memberUsers[i], found);
      forall c: Condition ensures AtomOfSome(done + {memberUsers[i]}, c) <==> AtomOfSome(done, c) || IsAtomOf(memberUsers[i], c) {
        AtomOfOneMore(done, memberUsers[i], c);
      }
      done := done + {memberUsers[i]};
    }
    assert memberUsers[..|memberUsers|] == memberUsers;
    atoms := InKeyOrder(keyOf, found);
    InKeyOrderKeeps(keyOf, found);
  }

  lemma DistinctByCount<T>(a: seq<T>, b: seq<T>)
    requires Distinct(a) && multiset(a) == multiset(b)
    ensures Distinct(b)
  {
    forall i, j | 0 <= i < j < |b| ensures b[i] != b[j] {
      if b[i] == b[j] {
        TwiceIn(b, i, j);
        OnceIn(a, b[i]);
      }
    }
  }

  lemma TwiceIn<T>(b: seq<T>, i: nat, j: nat)
    requires i < j < |b| && b[i] == b[j]
    ensures multiset(b)[b[i]] >= 2
  {
    assert b == b[..i] + [b[i]] + b[i + 1..j] + [b[j]] + b[j + 1..];
  }

  lemma {:induction false} OnceIn<T>(a: seq<T>, x: T)
    requires Distinct(a)
    ensures multiset(a)[x] <= 1
  {
    if a != [] {
      OnceIn(a[1..], x);
      assert a == [a[0]] + a[1..];
      if x == a[0] {
        assert x !in a[1..];
      }
    }
  }

  // ---------------------------------------------------------------- what a group's search accepts

  /** A single condition that covers enough of the members to be worth pairing. */
  datatype Feasible = Feasible(condition: Condition, cohort: set<UserId>, matchedCount: nat)

  predicate Passes(params: Params, c: Candidate) {
    c.precision >= params.minPrecision && c.coverage >= params.minCoverage
  }

  function SingleOf(users: seq<User>, members: set<UserId>, c: Condition): Option<Candidate>
    requires members != {}
  {
    Scored([c], Cohort([c], users), members)
  }

  function FeasibleOf(params: Params, users: seq<User>, members: set<UserId>, c: Condition): seq<Feasible>
    requires members != {}
  {
    var s := SingleOf(users, members, c);
    if s.Some? && s.value.coverage >= params.minCoverage then [Feasible(c, Cohort([c], users), s.value.matchedCount)] else []
  }

  function PassingOf(params: Params, scored: Option<Candidate>): seq<Candidate> {
    if scored.Some? && Passes(params, scored.value) then [scored.value] else []
  }

  function FeasibleIn(params: Params, users: seq<User>, members: set<UserId>, atoms: seq<Condition>): seq<Feasible>
    requires members != {}
  {
    if atoms == [] then []
    else
      var n := |atoms| - 1;
      FeasibleIn(params, users, members, atoms[..n]) + FeasibleOf(params, users, members, atoms[n])
  }

  function SinglesIn(params: Params, users: seq<User>, members: set<UserId>, atoms: seq<Condition>): seq<Candidate>
    requires members != {}
  {
    if atoms == [] then []
    else
      var n := |atoms| - 1;
      SinglesIn(params, users, members, atoms[..n]) + PassingOf(params, SingleOf(users, members, atoms[n]))
  }

  function OrderedPair(keyOf: KeyOf, a: Condition, b: Condition): seq<Condition> {
    if AtMost(keyOf(a), keyOf(b)) then [a, b] else [b, a]
  }

  /** The conjunction of two single conditions on different fields. */
  function PairOf(keyOf: KeyOf, members: set<UserId>, a: Feasible, b: Feasible): Option<Candidate>
    requires members != {}
  {
    if a.condition.field == b.condition.field then None
    else Scored(OrderedPair(keyOf, a.condition, b.condition), a.cohort * b.cohort, members)
  }

  function PairsWith(keyOf: KeyOf, params: Params, members: set<UserId>, a: Feasible, others: seq<Feasible>): seq<Candidate>
    requires members != {}
  {
    if others == [] then []
    else
      var n := |others| - 1;
      PairsWith(keyOf, params, members, a, others[..n]) + PassingOf(params, PairOf(keyOf, members, a, others[n]))
  }

  function PairsIn(keyOf: KeyOf, params: Params, members: set<UserId>, sources: seq<Feasible>): seq<Candidate>
    requires members != {}
  {
    if sources == [] then []
    else PairsWith(keyOf, params, members, sources[0], sources[1..]) + PairsIn(keyOf, params, members, sources[1..])
  }

  /** Most members matched first, then by key. */
  function ByOverlap(keyOf: KeyOf): (Feasible, Feasible) -> bool {
    (a: Feasible, b: Feasible) => a.matchedCount > b.matchedCount
      || (a.matchedCount == b.matchedCount && AtMost(keyOf(a.condition), keyOf(b.condition)))
  }

  function PairSources(keyOf: KeyOf, params: Params, users: seq<User>, members: set<UserId>, atoms: seq<Condition>): seq<Feasible>
    requires members != {}
  {
    FirstOf(SortBy(ByOverlap(keyOf), FeasibleIn(params, users, members, atoms)), MAX_PAIR_SOURCES)
  }

  /** Everything that meets both thresholds: single conditions, then pairs of the capped sources. */
  function Accepted(keyOf: KeyOf, params: Params, users: seq<User>, members: set<UserId>, atoms: seq<Condition>): seq<Candidate>
    requires members != {}
  {
    SinglesIn(params, users, members, atoms)
    + PairsIn(keyOf, params, members, PairSources(keyOf, params, users, members, atoms))
  }

  /** A shorter formula that is at least as precise and at least as covering. */
  predicate Beats(other: Candidate, c: Candidate) {
    |other.conditions| < |c.conditions| && other.precision >= c.precision && other.coverage >= c.coverage
  }

  predicate Beaten(accepted: seq<Candidate>, c: Candidate) {
    exists i | 0 <= i < |accepted| :: Beats(accepted[i], c)
  }

  function Unbeaten(accepted: seq<Candidate>, list: seq<Candidate>): (r: seq<Candidate>)
    ensures forall c :: c in r <==> c in list && !Beaten(accepted, c)
  {
    if list == [] then []
    else (if Beaten(accepted, list[0]) then [] else [list[0]]) + Unbeaten(accepted, list[1..])
  }

  function CandidateKey(keyOf: KeyOf, conditions: seq<Condition>): string {
    if conditions == [] then ""
    else if |conditions| == 1 then keyOf(conditions[0])
    else keyOf(conditions[0]) + "\0" + CandidateKey(keyOf, conditions[1..])
  }

  /** Best score first, then the shorter formula, then by key. */
  function ByRank(keyOf: KeyOf): (Candidate, Candidate) -> bool {
    (a: Candidate, b: Candidate) => a.score > b.score || (a.score == b.score
      && (|a.conditions| < |b.conditions| || (|a.conditions| == |b.conditions|
          && AtMost(CandidateKey(keyOf, a.conditions), CandidateKey(keyOf, b.conditions)))))
  }

  /** The candidates reported for one group. */
  function Reported(keyOf: KeyOf, params: Params, users: seq<User>, members: set<UserId>, atoms: seq<Condition>): seq<Candidate>
    requires members != {} && params.maxCandidates >= 1
  {
    var accepted := Accepted(keyOf, params, users, members, atoms);
    FirstOf(SortBy(ByRank(keyOf), Unbeaten(accepted, accepted)), params.maxCandidates)
  }

  // ---------------------------------------------------------------- the search

  /** Cohorts already computed, by the key of their condition. */
  ghost predicate CacheOk(keyOf: KeyOf, users: seq<User>, cache: map<string, set<UserId>>) {
    forall c :: keyOf(c) in cache ==> cache[keyOf(c)] == Cohort([c], users)
  }

  ghost predicate NeverRefused(users: seq<User>, c: Condition) {
    forall u | u in users :: MatchOne(c, u).Known?
  }

  lemma OneConditionKnown(c: Condition, user: User)
    requires MatchOne(c, user).Known?
    ensures Evaluate([c], user) == MatchOne(c, user)
  {
    assert [c][0] == c && [c][1..] == [];
    assert MatchAll([], user) == Known(true);
    assert MatchAll([c], user) == And(MatchOne(c, user).matched, MatchAll([c][1..], user));
  }

  /** The memoised cohort of a single condition. */
  method AtomicCohort(keyOf: KeyOf, users: seq<User>, c: Condition, cache: map<string, set<UserId>>)
    returns (cohort: set<UserId>, cache': map<string, set<UserId>>)
    requires Injective(keyOf) && CacheOk(keyOf, users, cache) && NeverRefused(users, c)
    ensures cohort == Cohort([c], users) && CacheOk(keyOf, users, cache')
  {
    if keyOf(c) in cache {
      return cache[keyOf(c)], cache;
    }
    var computed := CohortOf([c], users);
    forall u | u in users ensures Evaluate([c], u).Known? {
      OneConditionKnown(c, u);
    }
    cohort := computed.value;
    cache' := cache[keyOf(c) := cohort];
  }

  method SearchSingles(keyOf: KeyOf, params: Params, users: seq<User>, members: set<UserId>, atoms: seq<Condition>,
                       cache: map<string, set<UserId>>)
    returns (feasible: seq<Feasible>, accepted: seq<Candidate>, cache': map<string, set<UserId>>)
    requires Injective(keyOf) && members != {} && CacheOk(keyOf, users, cache)
    requires forall c | c in atoms :: NeverRefused(users, c)
    ensures feasible == FeasibleIn(params, users, members, atoms) && accepted == SinglesIn(params, users, members, atoms)
    ensures CacheOk(keyOf, users, cache')
  {
    feasible, accepted, cache' := [], [], cache;
    for i := 0 to |atoms|
      invariant feasible == FeasibleIn(params, users, members, atoms[..i])
      invariant accepted == SinglesIn(params, users, members, atoms[..i])
      invariant CacheOk(keyOf, users, cache')
    {
      assert atoms[..i + 1][..i] == atoms[..i];
      var cohort;
      cohort, cache' := AtomicCohort(keyOf, users, atoms[i], cache');
      var scored := ScoreCandidate([atoms[i]], cohort, members);
      if scored.None? {
        continue;
      }
      if scored.value.coverage >= params.minCoverage {
        feasible := feasible + [Feasible(atoms[i], cohort, scored.value.matchedCount)];
      }
      if scored.value.precision >= params.minPrecision && scored.value.coverage >= params.minCoverage {
        accepted := accepted + [scored.value];
      }
    }
    assert atoms[..|atoms|] == atoms;
  }

  method PairWithOthers(keyOf: KeyOf, params: Params, members: set<UserId>, a: Feasible, others: seq<Feasible>)
    returns (accepted: seq<Candidate>)
    requires members != {}
    ensures accepted == PairsWith(keyOf, params, members, a, others)
  {
    accepted := [];
    for j := 0 to |others|
      invariant accepted == PairsWith(keyOf, params, members, a, others[..j])
    {
      assert others[..j + 1][..j] == others[..j];
      var b := others[j];
      if a.condition.field == b.condition.field {
        continue;
      }
      var both := Intersect(a.cohort, b.cohort);
      var scored := ScoreCandidate(OrderedPair(keyOf, a.condition, b.condition), both, members);
      if scored.None? {
        continue;
      }
      if scored.value.precision >= params.minPrecision && scored.value.coverage >= params.minCoverage {
        accepted := accepted + [scored.value];
      }
    }
    assert others[..|others|] == others;
  }

  method SearchPairs(keyOf: KeyOf, params: Params, members: set<UserId>, sources: seq<Feasible>)
    returns (accepted: seq<Candidate>)
    requires members != {}
    ensures accepted == PairsIn(keyOf, params, members, sources)
  {
    accepted := [];
    for i := 0 to |sources|
      invariant accepted + PairsIn(keyOf, params, members, sources[i..]) == PairsIn(keyOf, params, members, sources)
    {
      assert sources[i..][0] == sources[i] && sources[i..][1..] == sources[i + 1..];
      var more := PairWithOthers(keyOf, params, members, sources[i], sources[i + 1..]);
      ghost var rest := PairsIn(keyOf, params, members, sources[i + 1..]);
      assert accepted + (more + rest) == (accepted + more) + rest;
      accepted := accepted + more;
    }
  }

  method MineGroup(keyOf: KeyOf, params: Params, users: seq<User>, members: set<UserId>, memberUsers: seq<User>,
                   cache: map<string, set<UserId>>)
    returns (candidates: seq<Candidate>, ghost atoms: seq<Condition>, cache': map<string, set<UserId>>)
    requires Injective(keyOf) && members != {} && Valid(params) && CacheOk(keyOf, users, cache)
    ensures IsAtomics(keyOf, (set u | u in memberUsers), atoms)
    ensures candidates == Reported(keyOf, params, users, members, atoms) && CacheOk(keyOf, users, cache')
  {
    var atomics := AtomicCandidatesFor(keyOf, memberUsers);
    atoms := atomics;
    forall c | c in atomics ensures NeverRefused(users, c) {
      var m :| m in memberUsers && IsAtomOf(m, c);
      forall u | u in users ensures MatchOne(c, u).Known? {
        AtomNeverRefused(m, c, u);
      }
    }
    var feasible, singles;
    feasible, singles, cache' := SearchSingles(keyOf, params, users, members, atomics, cache);
    var sources := FirstOf(SortBy(ByOverlap(keyOf), feasible), MAX_PAIR_SOURCES);
    var pairs := SearchPairs(keyOf, params, members, sources);
    var accepted := singles + pairs;
    candidates := FirstOf(SortBy(ByRank(keyOf), Unbeaten(accepted, accepted)), params.maxCandidates);
  }

  // ---------------------------------------------------------------- what is reported

  ghost predicate DistinctIds(users: seq<User>) {
    forall u, v | u in users && v in users && u.id == v.id :: u == v
  }

  /** `c` is the score of the single condition `a`, and passes. */
  ghost predicate IsSingle(params: Params, users: seq<User>, members: set<UserId>, a: Condition, c: Candidate)
    requires members != {}
  {
    SingleOf(users, members, a) == Some(c) && Passes(params, c)
  }

  lemma SingleFound(params: Params, users: seq<User>, members: set<UserId>, atoms: seq<Condition>, c: Candidate)
    returns (a: Condition)
    requires members != {} && c in SinglesIn(params, users, members, atoms)
    ensures a in atoms && IsSingle(params, users, members, a, c)
  {
    var n := |atoms| - 1;
    var before, last := SinglesIn(params, users, members, atoms[..n]), PassingOf(params, SingleOf(users, members, atoms[n]));
    if c in last {
      a := atoms[n];
    } else {
      assert c in before;
      a := SingleFound(params, users, members, atoms[..n], c);
    }
  }

  lemma {:induction false} FeasibleAre(params: Params, users: seq<User>, members: set<UserId>, atoms: seq<Condition>, f: Feasible)
    requires members != {}
    ensures f in FeasibleIn(params, users, members, atoms) <==>
      f.condition in atoms && f in FeasibleOf(params, users, members, f.condition)
  {
    if atoms != [] {
      var n := |atoms| - 1;
      FeasibleAre(params, users, members, atoms[..n], f);
      assert f.condition in atoms <==> f.condition in atoms[..n] || f.condition == atoms[n];
    }
  }

  /** `c` is the score of the pair of two sources, and passes. */
  ghost predicate IsPair(keyOf: KeyOf, params: Params, members: set<UserId>, a: Feasible, b: Feasible, c: Candidate)
    requires members != {}
  {
    PairOf(keyOf, members, a, b) == Some(c) && Passes(params, c)
  }

  ghost predicate PairAt(keyOf: KeyOf, params: Params, members: set<UserId>, sources: seq<Feasible>, i: nat, j: nat, c: Candidate)
    requires members != {}
  {
    i < j < |sources| && IsPair(keyOf, params, members, sources[i], sources[j], c)
  }

  lemma {:induction false} PairsWithAre(
    keyOf: KeyOf, params: Params, members: set<UserId>, a: Feasible, others: seq<Feasible>, c: Candidate)
    requires members != {}
    ensures c in PairsWith(keyOf, params, members, a, others) <==>
      exists b :: b in others && IsPair(keyOf, params, members, a, b, c)
  {
    if others != [] {
      var n := |others| - 1;
      PairsWithAre(keyOf, params, members, a, others[..n], c);
      assert c in PassingOf(params, PairOf(keyOf, members, a, others[n])) <==> IsPair(keyOf, params, members, a, others[n], c);
      assert forall b :: b in others <==> b in others[..n] || b == others[n];
    }
  }

  lemma PairFound(keyOf: KeyOf, params: Params, members: set<UserId>, sources: seq<Feasible>, c: Candidate) returns (i: nat, j: nat)
    requires members != {} && c in PairsIn(keyOf, params, members, sources)
    ensures PairAt(keyOf, params, members, sources, i, j, c)
  {
    var rest := sources[1..];
    PairsWithAre(keyOf, params, members, sources[0], rest, c);
    if c in PairsWith(keyOf, params, members, sources[0], rest) {
      var b :| b in rest && IsPair(keyOf, params, members, sources[0], b, c);
      var k :| 0 <= k < |rest| && rest[k] == b;
      i, j := 0, k + 1;
    } else {
      var i', j' := PairFound(keyOf, params, members, rest, c);
      i, j := i' + 1, j' + 1;
    }
  }

  lemma {:induction false} PairIncluded(
    keyOf: KeyOf, params: Params, members: set<UserId>, sources: seq<Feasible>, i: nat, j: nat, c: Candidate)
    requires members != {} && PairAt(keyOf, params, members, sources, i, j, c)
    ensures c in PairsIn(keyOf, params, members, sources)
  {
    var rest := sources[1..];
    if i == 0 {
      assert sources[j] == rest[j - 1];
      PairsWithAre(keyOf, params, members, sources[0], rest, c);
    } else {
      PairIncluded(keyOf, params, members, rest, i - 1, j - 1, c);
    }
  }

  /** The cohort of a pair is the intersection of the cohorts of its conditions. */
  lemma PairCohort(keyOf: KeyOf, users: seq<User>, a: Condition, b: Condition)
    requires DistinctIds(users) && NeverRefused(users, a) && NeverRefused(users, b)
    ensures Cohort(OrderedPair(keyOf, a, b), users) == Cohort([a], users) * Cohort([b], users)
    ensures forall u | u in users :: Evaluate(OrderedPair(keyOf, a, b), u).Known?
  {
    var pair := OrderedPair(keyOf, a, b);
    forall u | u in users
      ensures Evaluate(pair, u).Known?
      ensures Evaluate(pair, u) == Known(true) <==> Evaluate([a], u) == Known(true) && Evaluate([b], u) == Known(true)
    {
      OneConditionKnown(a, u);
      OneConditionKnown(b, u);
      EvaluateMeaning(pair, u);
      assert forall c :: c in pair <==> c == a || c == b;
      assert pair != [];
    }
  }

  /** A mined formula, as reported: one or two conditions the evaluator answers for everybody, scored over
      exactly the people the evaluator matches, and past both thresholds. */
  ghost predicate Faithful(params: Params, users: seq<User>, members: set<UserId>, c: Candidate)
    requires members != {}
  {
    && 1 <= |c.conditions| <= 2
    && (forall u | u in users :: Evaluate(c.conditions, u).Known?)
    && Cohort(c.conditions, users) != {} && Scored(c.conditions, Cohort(c.conditions, users), members) == Some(c)
    && Passes(params, c)
  }

  lemma AcceptedAreFaithful(keyOf: KeyOf, params: Params, users: seq<User>, members: set<UserId>, atoms: seq<Condition>, c: Candidate)
    requires members != {} && DistinctIds(users) && forall a | a in atoms :: NeverRefused(users, a)
    requires c in Accepted(keyOf, params, users, members, atoms)
    ensures Faithful(params, users, members, c)
  {
    if c in SinglesIn(params, users, members, atoms) {
      var a := SingleFound(params, users, members, atoms, c);
      forall u | u in users ensures Evaluate([a], u).Known? {
        OneConditionKnown(a, u);
      }
    } else {
      var sources := PairSources(keyOf, params, users, members, atoms);
      var i, j := PairFound(keyOf, params, members, sources, c);
      SourceIsFeasible(keyOf, params, users, members, atoms, sources[i]);
      SourceIsFeasible(keyOf, params, users, members, atoms, sources[j]);
      PairCohort(keyOf, users, sources[i].condition, sources[j].condition);
    }
  }

  lemma SourceIsFeasible(keyOf: KeyOf, params: Params, users: seq<User>, members: set<UserId>, atoms: seq<Condition>, f: Feasible)
    requires members != {} && f in PairSources(keyOf, params, users, members, atoms)
    ensures f.condition in atoms && f.cohort == Cohort([f.condition], users)
  {
    var feasible := FeasibleIn(params, users, members, atoms);
    SortKeeps(ByOverlap(keyOf), feasible);
    assert f in SortBy(ByOverlap(keyOf), feasible);
    FeasibleAre(params, users, members, atoms, f);
  }

  /** Every candidate reported is faithful, and no accepted shorter formula matches or beats it on both
      scores. */
  lemma ReportedAreFaithfulAndUnbeaten(
    keyOf: KeyOf, params: Params, users: seq<User>, members: set<UserId>, memberUsers: set<User>, atoms: seq<Condition>, c: Candidate)
    requires members != {} && DistinctIds(users) && Valid(params) && IsAtomics(keyOf, memberUsers, atoms)
    requires c in Reported(keyOf, params, users, members, atoms)
    ensures Faithful(params, users, members, c)
    ensures forall other | other in Accepted(keyOf, params, users, members, atoms) :: !Beats(other, c)
  {
    var accepted := Accepted(keyOf, params, users, members, atoms);
    var kept := Unbeaten(accepted, accepted);
    SortKeeps(ByRank(keyOf), kept);
    assert c in SortBy(ByRank(keyOf), kept);
    AtomsNeverRefused(keyOf, users, memberUsers, atoms);
    AcceptedAreFaithful(keyOf, params, users, members, atoms, c);
    forall other | other in accepted ensures !Beats(other, c) {
      var i :| 0 <= i < |accepted| && accepted[i] == other;
    }
  }

  lemma RankedBestFirst(keyOf: KeyOf, kept: seq<Candidate>, n: nat)
    ensures var top := FirstOf(SortBy(ByRank(keyOf), kept), n);
      && (forall i, j | 0 <= i < j < |top| :: top[i].score >= top[j].score)
      && (forall c, cut | c in top && cut in kept && cut !in top :: c.score >= cut.score)
  {
    var score, sorted := (c: Candidate) => c.score, SortBy(ByRank(keyOf), kept);
    var top := FirstOf(sorted, n);
    SortDescends(ByRank(keyOf), score, kept);
    forall i, j | 0 <= i < j < |top| ensures top[i].score >= top[j].score {
      assert score(sorted[i]) >= score(sorted[j]);
    }
    forall c, cut | c in top && cut in kept && cut !in top ensures c.score >= cut.score {
      KeptAreLargest(ByRank(keyOf), score, kept, n, c, cut);
    }
  }

  /** The candidates come best first, and no unbeaten candidate that was cut scores better than one
      reported. */
  lemma ReportedBestFirst(keyOf: KeyOf, params: Params, users: seq<User>, members: set<UserId>, atoms: seq<Condition>)
    requires members != {} && Valid(params)
    ensures var reported, accepted := Reported(keyOf, params, users, members, atoms), Accepted(keyOf, params, users, members, atoms);
      && (forall i, j | 0 <= i < j < |reported| :: reported[i].score >= reported[j].score)
      && (forall c, cut | c in reported && cut in Unbeaten(accepted, accepted) && cut !in reported :: c.score >= cut.score)
  {
    var accepted := Accepted(keyOf, params, users, members, atoms);
    RankedBestFirst(keyOf, Unbeaten(accepted, accepted), params.maxCandidates);
  }

  /** Pairs are made of the feasible conditions that match the most members. */
  lemma SourcesMatchMost(
    keyOf: KeyOf, params: Params, users: seq<User>, members: set<UserId>, atoms: seq<Condition>, f: Feasible, cut: Feasible)
    requires members != {} && f in PairSources(keyOf, params, users, members, atoms)
    requires cut in FeasibleIn(params, users, members, atoms) && cut !in PairSources(keyOf, params, users, members, atoms)
    ensures f.matchedCount >= cut.matchedCount
  {
    var overlap := (x: Feasible) => x.matchedCount as real;
    KeptAreLargest(ByOverlap(keyOf), overlap, FeasibleIn(params, users, members, atoms), MAX_PAIR_SOURCES, f, cut);
  }

  lemma AtomsNeverRefused(keyOf: KeyOf, users: seq<User>, memberUsers: set<User>, atoms: seq<Condition>)
    requires IsAtomics(keyOf, memberUsers, atoms)
    ensures forall a | a in atoms :: NeverRefused(users, a)
  {
    forall a | a in atoms ensures NeverRefused(users, a) {
      var m :| m in memberUsers && IsAtomOf(m, a);
      forall u | u in users ensures MatchOne(a, u).Known? {
        AtomNeverRefused(m, a, u);
      }
    }
  }

  // ---------------------------------------------------------------- pruning loses nothing

  lemma SmallerShare(part: set<UserId>, whole: set<UserId>, members: set<UserId>)
    requires members != {} && part <= whole
    ensures |part * members| as real / |members| as real <= |whole * members| as real / |members| as real
  {
    SubsetSize(part * members, whole * members);
    SmallerQuotient(|part * members|, |whole * members|, |members|);
  }

  lemma SubsetSize(a: set<UserId>, b: set<UserId>)
    requires a <= b
    ensures |a| <= |b|
  {
    assert b == a + (b - a);
  }

  lemma SmallerQuotient(a: nat, b: nat, n: nat)
    requires a <= b && n > 0
    ensures a as real / n as real <= b as real / n as real
  {
  }

  /** A pair's coverage is at most that of either condition, so both conditions of a passing pair are
      feasible on their own. */
  lemma PairNeedsFeasible(params: Params, users: seq<User>, members: set<UserId>, atoms: seq<Condition>, a: Condition,
                          conditions: seq<Condition>, cohort: set<UserId>, c: Candidate)
    requires members != {} && a in atoms && cohort <= Cohort([a], users)
    requires Scored(conditions, cohort, members) == Some(c) && Passes(params, c)
    ensures SingleOf(users, members, a).Some?
    ensures Feasible(a, Cohort([a], users), SingleOf(users, members, a).value.matchedCount)
         in FeasibleIn(params, users, members, atoms)
  {
    SmallerShare(cohort, Cohort([a], users), members);
    FeasibleAre(params, users, members, atoms, Feasible(a, Cohort([a], users), SingleOf(users, members, a).value.matchedCount));
  }

  lemma OrderedPairEitherWay(keyOf: KeyOf, a: Condition, b: Condition)
    requires Injective(keyOf) && a != b
    ensures OrderedPair(keyOf, a, b) == OrderedPair(keyOf, b, a)
  {
    Total(keyOf(a), keyOf(b));
    if AtMost(keyOf(a), keyOf(b)) && AtMost(keyOf(b), keyOf(a)) {
      Antisymmetric(keyOf(a), keyOf(b));
    }
  }

  /** Two sources on different fields are paired, whichever comes first. */
  lemma SourcesArePaired(
    keyOf: KeyOf, params: Params, members: set<UserId>, sources: seq<Feasible>, fa: Feasible, fb: Feasible, c: Candidate)
    requires Injective(keyOf) && members != {} && fa in sources && fb in sources
    requires IsPair(keyOf, params, members, fa, fb, c)
    ensures c in PairsIn(keyOf, params, members, sources)
  {
    var i :| 0 <= i < |sources| && sources[i] == fa;
    var j :| 0 <= j < |sources| && sources[j] == fb;
    if i < j {
      PairIncluded(keyOf, params, members, sources, i, j, c);
    } else {
      OrderedPairEitherWay(keyOf, fa.condition, fb.condition);
      assert fb.cohort * fa.cohort == fa.cohort * fb.cohort;
      PairIncluded(keyOf, params, members, sources, j, i, c);
    }
  }

  lemma FewAreAllSources(
    keyOf: KeyOf, params: Params, users: seq<User>, members: set<UserId>, atoms: seq<Condition>, f: Feasible)
    requires members != {} && |FeasibleIn(params, users, members, atoms)| <= MAX_PAIR_SOURCES
    requires f in FeasibleIn(params, users, members, atoms)
    ensures f in PairSources(keyOf, params, users, members, atoms)
  {
    SortKeeps(ByOverlap(keyOf), FeasibleIn(params, users, members, atoms));
  }

  /** With at most twenty-four feasible conditions nothing is cut: every pair of atoms on different fields
      that meets both thresholds is among the accepted candidates. */
  lemma PruningLosesNothing(
    keyOf: KeyOf, params: Params, users: seq<User>, members: set<UserId>, memberUsers: set<User>, atoms: seq<Condition>,
    a: Condition, b: Condition, c: Candidate)
    requires Injective(keyOf) && members != {} && DistinctIds(users) && IsAtomics(keyOf, memberUsers, atoms)
    requires |FeasibleIn(params, users, members, atoms)| <= MAX_PAIR_SOURCES
    requires a in atoms && b in atoms && a.field != b.field
    requires Scored(OrderedPair(keyOf, a, b), Cohort(OrderedPair(keyOf, a, b), users), members) == Some(c) && Passes(params, c)
    ensures c in Accepted(keyOf, params, users, members, atoms)
  {
    AtomsNeverRefused(keyOf, users, memberUsers, atoms);
    PairCohort(keyOf, users, a, b);
    var pair, both := OrderedPair(keyOf, a, b), Cohort([a], users) * Cohort([b], users);
    PairNeedsFeasible(params, users, members, atoms, a, pair, both, c);
    PairNeedsFeasible(params, users, members, atoms, b, pair, both, c);
    var fa := Feasible(a, Cohort([a], users), SingleOf(users, members, a).value.matchedCount);
    var fb := Feasible(b, Cohort([b], users), SingleOf(users, members, b).value.matchedCount);
    FewAreAllSources(keyOf, params, users, members, atoms, fa);
    FewAreAllSources(keyOf, params, users, members, atoms, fb);
    SourcesArePaired(keyOf, params, members, PairSources(keyOf, params, users, members, atoms), fa, fb, c);
  }

  // ---------------------------------------------------------------- only who is there matters

  ghost predicate SameUsers(a: seq<User>, b: seq<User>) {
    forall u :: u in a <==> u in b
  }

  lemma {:induction false} SearchDependsOnSet(params: Params, a: seq<User>, b: seq<User>, members: set<UserId>, atoms: seq<Condition>)
    requires members != {} && SameUsers(a, b)
    ensures FeasibleIn(params, a, members, atoms) == FeasibleIn(params, b, members, atoms)
    ensures SinglesIn(params, a, members, atoms) == SinglesIn(params, b, members, atoms)
  {
    if atoms != [] {
      var n := |atoms| - 1;
      SearchDependsOnSet(params, a, b, members, atoms[..n]);
      assert Cohort([atoms[n]], a) == Cohort([atoms[n]], b);
    }
  }

  lemma ReportedDependsOnSet(
    keyOf: KeyOf, params: Params, a: seq<User>, b: seq<User>, members: set<UserId>, atoms: seq<Condition>)
    requires members != {} && SameUsers(a, b) && Valid(params)
    ensures Reported(keyOf, params, a, members, atoms) == Reported(keyOf, params, b, members, atoms)
  {
    SearchDependsOnSet(params, a, b, members, atoms);
  }

  // ---------------------------------------------------------------- the whole mining run

  predicate Present(users: seq<User>, id: UserId) {
    exists i | 0 <= i < |users| :: users[i].id == id
  }

  /** The population's manual members of a group. */
  function MembersOf(users: seq<User>, memberships: seq<Membership>, groupId: GroupId): set<UserId> {
    set m | m in memberships && m.groupId == groupId && Present(users, m.userId) :: m.userId
  }

  ghost function UsersAmong(users: seq<User>, members: set<UserId>): set<User> {
    set u | u in users && u.id in members
  }

  /** The candidates are the ones the group's own atoms lead to. */
  ghost predicate IsReport(
    keyOf: KeyOf, params: Params, users: seq<User>, members: set<UserId>, atoms: seq<Condition>, candidates: seq<Candidate>)
    requires members != {} && Valid(params)
  {
    IsAtomics(keyOf, UsersAmong(users, members), atoms) && candidates == Reported(keyOf, params, users, members, atoms)
  }

  ghost predicate Reports(keyOf: KeyOf, params: Params, users: seq<User>, members: set<UserId>, candidates: seq<Candidate>)
    requires members != {} && Valid(params)
  {
    exists atoms :: IsReport(keyOf, params, users, members, atoms, candidates)
  }

  ghost predicate IsGroupResult(keyOf: KeyOf, params: Params, users: seq<User>, memberships: seq<Membership>, r: GroupResult)
    requires Valid(params)
  {
    var members := MembersOf(users, memberships, r.groupId);
    members != {} && r.memberCount == |members| && r.candidates != [] && Reports(keyOf, params, users, members, r.candidates)
  }

  /** A group nothing is reported for: it has no members in the population, or no candidate survives. */
  ghost predicate IsSilent(keyOf: KeyOf, params: Params, users: seq<User>, memberships: seq<Membership>, groupId: GroupId)
    requires Valid(params)
  {
    var members := MembersOf(users, memberships, groupId);
    members == {} || Reports(keyOf, params, users, members, [])
  }

  function GroupIds(results: seq<GroupResult>): (ids: seq<GroupId>)
    ensures |ids| == |results| && forall i | 0 <= i < |ids| :: ids[i] == results[i].groupId
  {
    seq(|results|, i requires 0 <= i < |results| => results[i].groupId)
  }

  /** The output: one result per group that has any, in the order of the group ids. */
  ghost predicate IsMined(keyOf: KeyOf, params: Params, users: seq<User>, memberships: seq<Membership>, results: seq<GroupResult>)
    requires Valid(params)
  {
    && Distinct(GroupIds(results)) && Sorted(GroupIds(results))
    && (forall r | r in results :: IsGroupResult(keyOf, params, users, memberships, r))
    && (forall g | g !in GroupIds(results) :: IsSilent(keyOf, params, users, memberships, g))
  }

  lemma OneReport(
    keyOf: KeyOf, params: Params, a: seq<User>, b: seq<User>, members: set<UserId>, x: seq<Candidate>, y: seq<Candidate>)
    requires Injective(keyOf) && members != {} && Valid(params) && SameUsers(a, b)
    requires Reports(keyOf, params, a, members, x) && Reports(keyOf, params, b, members, y)
    ensures x == y
  {
    var s :| IsReport(keyOf, params, a, members, s, x);
    var t :| IsReport(keyOf, params, b, members, t, y);
    assert UsersAmong(a, members) == UsersAmong(b, members);
    AtomicsUnique(keyOf, UsersAmong(a, members), s, t);
    ReportedDependsOnSet(keyOf, params, a, b, members, s);
  }

  lemma SameMembers(a: seq<User>, b: seq<User>, m: seq<Membership>, n: seq<Membership>, groupId: GroupId)
    requires SameUsers(a, b) && forall e :: e in m <==> e in n
    ensures MembersOf(a, m, groupId) == MembersOf(b, n, groupId)
  {
    forall id ensures Present(a, id) <==> Present(b, id) {
      if Present(a, id) {
        var i :| 0 <= i < |a| && a[i].id == id;
        assert a[i] in b;
      }
      if Present(b, id) {
        var i :| 0 <= i < |b| && b[i].id == id;
        assert b[i] in a;
      }
    }
  }

  /** A group reported from one listing is reported from the other, and with the same candidates. */
  lemma SameGroupsReported(
    keyOf: KeyOf, params: Params, a: seq<User>, b: seq<User>, m: seq<Membership>, n: seq<Membership>,
    x: seq<GroupResult>, y: seq<GroupResult>, r: GroupResult)
    requires Injective(keyOf) && Valid(params) && SameUsers(a, b) && forall e :: e in m <==> e in n
    requires IsMined(keyOf, params, a, m, x) && IsMined(keyOf, params, b, n, y) && r in x
    ensures r in y
  {
    SameMembers(a, b, m, n, r.groupId);
    var members := MembersOf(a, m, r.groupId);
    assert IsGroupResult(keyOf, params, a, m, r);
    if r.groupId !in GroupIds(y) {
      assert IsSilent(keyOf, params, b, n, r.groupId);
      OneReport(keyOf, params, a, b, members, r.candidates, []);
    } else {
      var i :| 0 <= i < |y| && GroupIds(y)[i] == r.groupId;
      assert y[i] in y && IsGroupResult(keyOf, params, b, n, y[i]);
      OneReport(keyOf, params, a, b, members, r.candidates, y[i].candidates);
    }
  }

  /** The output is the same under any reordering of the users and any reordering or repetition of the
      memberships. */
  lemma OrderDoesNotMatter(
    keyOf: KeyOf, params: Params, a: seq<User>, b: seq<User>, m: seq<Membership>, n: seq<Membership>,
    x: seq<GroupResult>, y: seq<GroupResult>)
    requires Injective(keyOf) && Valid(params) && SameUsers(a, b) && forall e :: e in m <==> e in n
    requires IsMined(keyOf, params, a, m, x) && IsMined(keyOf, params, b, n, y)
    ensures x == y
  {
    forall r | r in x ensures r in y {
      SameGroupsReported(keyOf, params, a, b, m, n, x, y, r);
    }
    forall r | r in y ensures r in x {
      SameGroupsReported(keyOf, params, b, a, n, m, y, x, r);
    }
    SameIds(x, y);
    SameMembersSameCount(GroupIds(x), GroupIds(y));
    SortedUnique(GroupIds(x), GroupIds(y));
    ResultsById(x, y);
  }

  lemma ResultsById(x: seq<GroupResult>, y: seq<GroupResult>)
    requires GroupIds(x) == GroupIds(y) && Distinct(GroupIds(y)) && forall r | r in x :: r in y
    ensures x == y
  {
    assert |x| == |GroupIds(x)| == |y|;
    forall i | 0 <= i < |x| ensures x[i] == y[i] {
      assert x[i] in x && x[i] in y;
      var j :| 0 <= j < |y| && y[j] == x[i];
      assert GroupIds(y)[j] == GroupIds(x)[i] == GroupIds(y)[i];
      assert i == j;
    }
  }

  lemma SameIds(x: seq<GroupResult>, y: seq<GroupResult>)
    requires (forall r | r in x :: r in y) && (forall r | r in y :: r in x)
    ensures forall g :: g in GroupIds(x) <==> g in GroupIds(y)
  {
    forall g ensures g in GroupIds(x) <==> g in GroupIds(y) {
      if g in GroupIds(x) {
        var i :| 0 <= i < |x| && GroupIds(x)[i] == g;
        assert x[i] in y;
      }
      if g in GroupIds(y) {
        var i :| 0 <= i < |y| && GroupIds(y)[i] == g;
        assert y[i] in x;
      }
    }
  }

  // ---------------------------------------------------------------- mining

  function MembersIn(membersByGroup: map<GroupId, set<UserId>>, g: GroupId): set<UserId> {
    if g in membersByGroup then membersByGroup[g] else {}
  }

  /** The members of each group in the population, and the groups in the order they are met. */
  method CollectMembers(users: seq<User>, memberships: seq<Membership>)
    returns (groups: seq<GroupId>, membersByGroup: map<GroupId, set<UserId>>)
    ensures Distinct(groups) && (forall g :: g in groups <==> g in membersByGroup)
    ensures forall g | g in membersByGroup :: membersByGroup[g] != {}
    ensures forall g :: MembersIn(membersByGroup, g) == MembersOf(users, memberships, g)
  {
    groups, membersByGroup := [], map[];
    for i := 0 to |memberships|
      invariant Distinct(groups) && forall g :: g in groups <==> g in membersByGroup
      invariant forall g | g in membersByGroup :: membersByGroup[g] != {}
      invariant forall g :: MembersIn(membersByGroup, g) == MembersOf(users, memberships[..i], g)
    {
      var edge := memberships[i];
      assert memberships[..i + 1] == memberships[..i] + [edge];
      ghost var before := membersByGroup;
      if Present(users, edge.userId) {
        if edge.groupId !in membersByGroup {
          groups := groups + [edge.groupId];
        }
        membersByGroup := membersByGroup[edge.groupId := MembersIn(membersByGroup, edge.groupId) + {edge.userId}];
      }
      forall g: GroupId ensures MembersIn(membersByGroup, g) == MembersOf(users, memberships[..i + 1], g) {
        MembersOneMore(users, memberships[..i], edge, g);
        assert MembersIn(before, g) == MembersOf(users, memberships[..i], g);
      }
    }
    assert memberships[..|memberships|] == memberships;
  }

  lemma MembersOneMore(users: seq<User>, memberships: seq<Membership>, edge: Membership, g: GroupId)
    ensures var more := if g == edge.groupId && Present(users, edge.userId) then {edge.userId} else {};
      MembersOf(users, memberships + [edge], g) == MembersOf(users, memberships, g) + more
  {
  }

  method UsersIn(users: seq<User>, members: set<UserId>) returns (memberUsers: seq<User>)
    ensures (set u | u in memberUsers) == UsersAmong(users, members)
  {
    memberUsers := [];
    for i := 0 to |users|
      invariant forall u :: u in memberUsers <==> u in users[..i] && u.id in members
    {
      assert users[..i + 1] == users[..i] + [users[i]];
      if users[i].id in members {
        memberUsers := memberUsers + [users[i]];
      }
    }
    assert users[..|users|] == users;
  }

  /** The mining of one group, as part of the run. */
  method MineOne(keyOf: KeyOf, params: Params, users: seq<User>, memberships: seq<Membership>, groupId: GroupId,
                 members: set<UserId>, cache: map<string, set<UserId>>)
    returns (candidates: seq<Candidate>, cache': map<string, set<UserId>>)
    requires Injective(keyOf) && Valid(params) && CacheOk(keyOf, users, cache)
    requires members != {} && members == MembersOf(users, memberships, groupId)
    ensures CacheOk(keyOf, users, cache')
    ensures candidates != [] ==>
      IsGroupResult(keyOf, params, users, memberships, GroupResult(groupId, |members|, candidates))
    ensures candidates == [] ==> IsSilent(keyOf, params, users, memberships, groupId)
  {
    var memberUsers := UsersIn(users, members);
    ghost var atoms;
    candidates, atoms, cache' := MineGroup(keyOf, params, users, members, memberUsers, cache);
    assert IsReport(keyOf, params, users, members, atoms, candidates);
  }

  datatype RangeError = RangeError

  /** Mines every group; parameters out of range are refused. */
  method MineRoles(keyOf: KeyOf, params: Params, users: seq<User>, memberships: seq<Membership>)
    returns (r: Result<seq<GroupResult>, RangeError>)
    requires Injective(keyOf)
    ensures !Valid(params) ==> r == Err(RangeError)
    ensures Valid(params) ==> r.Ok? && IsMined(keyOf, params, users, memberships, r.value)
  {
    if !Valid(params) {
      return Err(RangeError);
    }
    var groups, membersByGroup := CollectMembers(users, memberships);
    var order := Sort(groups);
    SortSorted(groups);
    DistinctByCount(groups, order);
    MemberOfEqual(order, groups);
    var results: seq<GroupResult> := [];
    var cache: map<string, set<UserId>> := map[];
    for i := 0 to |order|
      invariant CacheOk(keyOf, users, cache)
      invariant Reporting(keyOf, params, users, memberships, order[..i], results)
    {
      assert order[i] in order && order[i] in groups && order[i] in membersByGroup;
      var members := membersByGroup[order[i]];
      assert members == MembersIn(membersByGroup, order[i]);
      var candidates;
      candidates, cache := MineOne(keyOf, params, users, memberships, order[i], members, cache);
      ReportingOneMore(keyOf, params, users, memberships, order, i, results, |members|, candidates);
      if candidates != [] {
        results := results + [GroupResult(order[i], |members|, candidates)];
      }
    }
    assert order[..|order|] == order;
    forall g | g !in order ensures IsSilent(keyOf, params, users, memberships, g) {
      assert g !in membersByGroup;
      assert MembersIn(membersByGroup, g) == {};
    }
    r := Ok(results);
  }

  /** The results for the groups looked at so far. */
  ghost predicate Reporting(
    keyOf: KeyOf, params: Params, users: seq<User>, memberships: seq<Membership>, done: seq<GroupId>, results: seq<GroupResult>)
    requires Valid(params)
  {
    && Distinct(GroupIds(results)) && Sorted(GroupIds(results))
    && (forall g | g in GroupIds(results) :: g in done)
    && AllResults(keyOf, params, users, memberships, results)
    && OthersSilent(keyOf, params, users, memberships, done, GroupIds(results))
  }

  ghost predicate AllResults(keyOf: KeyOf, params: Params, users: seq<User>, memberships: seq<Membership>, results: seq<GroupResult>)
    requires Valid(params)
  {
    forall r | r in results :: IsGroupResult(keyOf, params, users, memberships, r)
  }

  ghost predicate OthersSilent(
    keyOf: KeyOf, params: Params, users: seq<User>, memberships: seq<Membership>, done: seq<GroupId>, ids: seq<GroupId>)
    requires Valid(params)
  {
    forall g | g in done && g !in ids :: IsSilent(keyOf, params, users, memberships, g)
  }

  lemma AllResultsMore(
    keyOf: KeyOf, params: Params, users: seq<User>, memberships: seq<Membership>, results: seq<GroupResult>, r: GroupResult)
    requires Valid(params) && AllResults(keyOf, params, users, memberships, results)
    requires IsGroupResult(keyOf, params, users, memberships, r)
    ensures AllResults(keyOf, params, users, memberships, results + [r])
  {
    forall x | x in results + [r] ensures IsGroupResult(keyOf, params, users, memberships, x) {
      assert x in results || x == r;
    }
  }

  lemma OthersSilentMore(
    keyOf: KeyOf, params: Params, users: seq<User>, memberships: seq<Membership>, done: seq<GroupId>, ids: seq<GroupId>,
    g: GroupId, more: seq<GroupId>)
    requires Valid(params) && OthersSilent(keyOf, params, users, memberships, done, ids)
    requires (forall x | x in ids :: x in more) && (g in more || IsSilent(keyOf, params, users, memberships, g))
    ensures OthersSilent(keyOf, params, users, memberships, done + [g], more)
  {
    forall x | x in done + [g] && x !in more ensures IsSilent(keyOf, params, users, memberships, x) {
      assert x in done || x == g;
    }
  }

  lemma GroupIdsMore(results: seq<GroupResult>, r: GroupResult)
    ensures GroupIds(results + [r]) == GroupIds(results) + [r.groupId]
  {
  }

  lemma OrderedMore(ids: seq<GroupId>, order: seq<GroupId>, i: nat)
    requires Distinct(ids) && Sorted(ids) && Distinct(order) && Sorted(order) && i < |order|
    requires forall g | g in ids :: g in order[..i]
    ensures Distinct(ids + [order[i]]) && Sorted(ids + [order[i]])
  {
    var more := ids + [order[i]];
    forall k | 0 <= k < |ids| ensures ids[k] != order[i] && AtMost(ids[k], order[i]) {
      assert ids[k] in order[..i];
      var n :| 0 <= n < i && order[n] == ids[k];
      assert AtMost(order[n], order[i]);
    }
    forall a, b | 0 <= a < b < |more| ensures AtMost(more[a], more[b]) {
      if b < |ids| {
        assert AtMost(ids[a], ids[b]);
      }
    }
  }

  lemma ReportingOneMore(
    keyOf: KeyOf, params: Params, users: seq<User>, memberships: seq<Membership>, order: seq<GroupId>, i: nat,
    results: seq<GroupResult>, count: nat, candidates: seq<Candidate>)
    requires Valid(params) && i < |order| && Distinct(order) && Sorted(order)
    requires Reporting(keyOf, params, users, memberships, order[..i], results)
    requires candidates != [] ==> IsGroupResult(keyOf, params, users, memberships, GroupResult(order[i], count, candidates))
    requires candidates == [] ==> IsSilent(keyOf, params, users, memberships, order[i])
    ensures var more := if candidates != [] then results + [GroupResult(order[i], count, candidates)] else results;
      Reporting(keyOf, params, users, memberships, order[..i + 1], more)
  {
    var done, ids := order[..i], GroupIds(results);
    assert order[..i + 1] == done + [order[i]];
    if candidates != [] {
      var r := GroupResult(order[i], count, candidates);
      GroupIdsMore(results, r);
      OrderedMore(ids, order, i);
      AllResultsMore(keyOf, params, users, memberships, results, r);
      OthersSilentMore(keyOf, params, users, memberships, done, ids, order[i], ids + [order[i]]);
    } else {
      OthersSilentMore(keyOf, params, users, memberships, done, ids, order[i], ids);
    }
  }
}
