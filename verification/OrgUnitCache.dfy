/**
 * Org units in the directory, and the connector's cache of the ones it has confirmed. A cached org unit
 * is not looked up again, so every entry has to be there; a move is where that goes wrong.
 *
 * Org units are named by their path; `fold` is the letter-case folding under which the directory compares
 * names, and the cache compares them as written.
 */
module OrgUnitCache {
  import opened Common
  import opened Dn

  /** `known` is the cache, `tree` the folded paths of the org units that exist. */
  datatype State = State(known: set<Path>, tree: set<Path>)

  /** A write the directory refuses ends the call with an error and drops the connection and its cache. */
  datatype Outcome = Done(state: State) | Failed(tree: set<Path>)

  function Settled(o: Outcome): State {
    match o
    case Done(s) => s
    case Failed(tree) => State({}, tree)
  }

  function Parent(path: Path): Path
    requires path != []
  {
    path[..|path| - 1]
  }

  /** The base exists; any other container has to be in the tree. */
  predicate Present(tree: set<Path>, folded: Path) {
    folded == [] || folded in tree
  }

  /** Every org unit but the topmost has its parent. */
  ghost predicate Rooted(tree: set<Path>) {
    forall p | p in tree :: p != [] && Present(tree, Parent(p))
  }

  /** Every cached org unit exists. */
  ghost predicate CacheSound(fold: char -> char, s: State) {
    forall p | p in s.known :: FoldedPath(fold, p) in s.tree
  }

  // ---------------------------------------------------------------- confirming or creating a chain

  /** One level: trusted if cached, else looked up, else created where that is configured. */
  function EnsureOne(fold: char -> char, create: bool, s: State, path: Path): Outcome
    requires path != []
  {
    var p := FoldedPath(fold, path);
    if path in s.known then Done(s)
    else if p in s.tree then Done(s.(known := s.known + {path}))
    else if !create || !Present(s.tree, Parent(p)) then Failed(s.tree)
    else Done(State(s.known + {path}, s.tree + {p}))
  }

  /** The levels of a path in turn, from the root. */
  function Ensure(fold: char -> char, create: bool, s: State, path: Path): Outcome {
    if path == [] then Done(s)
    else
      match Ensure(fold, create, s, Parent(path))
      case Failed(tree) => Failed(tree)
      case Done(above) => EnsureOne(fold, create, above, path)
  }

  // ---------------------------------------------------------------- moving a node

  /** A rename carries every descendant along. */
  function Moved(tree: set<Path>, from: Path, to: Path): set<Path> {
    (set p | p in tree && !(from <= p)) + (set p | p in tree && from <= p :: to + p[|from|..])
  }

  /** The directory moves a node only under an existing parent, to a free name, and not under itself. */
  predicate MayMove(tree: set<Path>, from: Path, to: Path)
    requires to != []
  {
    Present(tree, Parent(to)) && to !in tree && !(from <= to)
  }

  /** What a move drops from the cache: in the code the one DN that moved; in the variant everything at or
      below it. */
  function Forget(fold: char -> char, known: set<Path>, previous: Path, descendants: bool): set<Path> {
    if descendants then set p | p in known && !(FoldedPath(fold, previous) <= FoldedPath(fold, p))
    else known - {previous}
  }

  predicate IsMove(fold: char -> char, s: State, path: Path, previous: Option<Path>) {
    && previous.Some? && previous.value != []
    && FoldedPath(fold, previous.value) != FoldedPath(fold, path)
    && FoldedPath(fold, previous.value) in s.tree
  }

  /** Bringing one org unit to where it should be: a move if it still is where it was, else a creation. */
  function Applied(fold: char -> char, create: bool, descendants: bool, s: State, path: Path, previous: Option<Path>): Outcome {
    if path == [] then Done(s)
    else if !IsMove(fold, s, path, previous) then Ensure(fold, create, s, path)
    else
      match Ensure(fold, create, s, Parent(path))
      case Failed(tree) => Failed(tree)
      case Done(above) =>
        var from, to := FoldedPath(fold, previous.value), FoldedPath(fold, path);
        if !MayMove(above.tree, from, to) then Failed(above.tree)
        else Done(State(Forget(fold, above.known, previous.value, descendants) + {path}, Moved(above.tree, from, to)))
  }

  /** The connector's cache over a directory that others also write to. */
  class OrgUnits {
    const fold: char -> char
    const createMissing: bool
    var known: set<Path>
    var tree: set<Path>

    constructor (caseFold: char -> char, create: bool, existing: set<Path>)
      ensures fold == caseFold && createMissing == create && known == {} && tree == existing
    {
      fold, createMissing, known, tree := caseFold, create, {}, existing;
    }

    function Now(): State
      reads this
    {
      State(known, tree)
    }

    /** Walks the path from the root; an error leaves what was created and empties the cache. */
    method EnsureOrgUnitChain(path: Path) returns (ok: bool)
      modifies this
      ensures Now() == Settled(Ensure(fold, createMissing, old(Now()), path))
      ensures ok == Ensure(fold, createMissing, old(Now()), path).Done?
    {
      for i := 0 to |path|
        invariant Ensure(fold, createMissing, old(Now()), path[..i]) == Done(Now())
      {
        var dn := path[..i + 1];
        assert Parent(dn) == path[..i];
        if dn !in known {
          var folded := FoldedPath(fold, dn);
          if folded !in tree {
            if !createMissing || !Present(tree, Parent(folded)) {
              FailureSpreads(fold, createMissing, old(Now()), path, i + 1);
              known := {};
              return false;
            }
            tree := tree + {folded};
          }
          known := known + {dn};
        }
      }
      assert path[..|path|] == path;
      ok := true;
    }

    method ApplyOrgUnit(path: Path, previous: Option<Path>) returns (ok: bool)
      modifies this
      ensures Now() == Settled(Applied(fold, createMissing, false, old(Now()), path, previous))
      ensures ok == Applied(fold, createMissing, false, old(Now()), path, previous).Done?
    {
      if path == [] {
        return true;
      }
      if previous.Some? && previous.value != [] {
        var from, to := FoldedPath(fold, previous.value), FoldedPath(fold, path);
        if from != to && from in tree {
          ok := EnsureOrgUnitChain(path[..|path| - 1]);
          if !ok {
            return;
          }
          if !MayMove(tree, from, to) {
            known := {};
            return false;
          }
          tree := Moved(tree, from, to);
          known := known - {previous.value};
          known := known + {path};
          return true;
        }
      }
      ok := EnsureOrgUnitChain(path);
    }
  }

  /** A level that fails fails the whole chain. */
  lemma {:induction false} FailureSpreads(fold: char -> char, create: bool, s: State, path: Path, i: nat)
    requires i <= |path| && Ensure(fold, create, s, path[..i]).Failed?
    ensures Ensure(fold, create, s, path) == Ensure(fold, create, s, path[..i])
    decreases |path|
  {
    if i < |path| {
      assert Parent(path)[..i] == path[..i];
      FailureSpreads(fold, create, s, Parent(path), i);
    } else {
      assert path[..i] == path;
    }
  }

  // ---------------------------------------------------------------- soundness of the cache

  lemma {:induction false} EnsureKeeps(fold: char -> char, create: bool, s: State, path: Path)
    requires CacheSound(fold, s) && Rooted(s.tree)
    ensures var o := Ensure(fold, create, s, path);
      && Rooted(Settled(o).tree) && s.tree <= Settled(o).tree && CacheSound(fold, Settled(o))
      && (o.Done? ==> s.known <= o.state.known && Present(o.state.tree, FoldedPath(fold, path)))
      && (o.Done? ==> forall q | q in o.state.known :: q in s.known || q <= path)
  {
    if path == [] {
      assert FoldedPath(fold, path) == [];
    } else {
      EnsureKeeps(fold, create, s, Parent(path));
      assert Parent(FoldedPath(fold, path)) == FoldedPath(fold, Parent(path));
      assert Parent(path) <= path;
    }
  }

  lemma MovedHas(tree: set<Path>, from: Path, to: Path, p: Path)
    ensures p in Moved(tree, from, to) <==>
      (p in tree && !(from <= p)) || (exists q :: q in tree && from <= q && p == to + q[|from|..])
  {
  }

  lemma PrefixesCompare(a: Path, b: Path, p: Path)
    requires a <= p && b <= p
    ensures a <= b || b <= a
  {
    if |a| <= |b| {
      assert a == p[..|a|] == b[..|a|];
    } else {
      assert b == p[..|b|] == a[..|b|];
    }
  }

  lemma PrefixTransitive(a: Path, b: Path, c: Path)
    requires b <= c
    ensures a <= b ==> a <= c
  {
  }

  lemma {:induction false} AncestorsPresent(tree: set<Path>, p: Path, a: Path)
    requires Rooted(tree) && p in tree && a <= p
    ensures Present(tree, a)
    decreases |p|
  {
    if a != p {
      if Parent(p) != [] {
        AncestorsPresent(tree, Parent(p), a);
      }
    }
  }

  /** After a permitted move nothing is left at or below the old place. */
  lemma NothingLeftBehind(tree: set<Path>, from: Path, to: Path, p: Path)
    requires Rooted(tree) && from in tree && to != [] && MayMove(tree, from, to) && from <= p
    ensures p !in Moved(tree, from, to)
  {
    MovedHas(tree, from, to, p);
    if q :| q in tree && from <= q && p == to + q[|from|..] {
      assert to <= p;
      PrefixesCompare(from, to, p);
      AncestorsPresent(tree, from, to);
    }
  }

  /** What is not below the old place stays, and the node itself arrives. */
  lemma RestStays(tree: set<Path>, from: Path, to: Path, p: Path)
    requires from in tree
    ensures to in Moved(tree, from, to)
    ensures p in tree && !(from <= p) ==> p in Moved(tree, from, to)
  {
    assert from <= from && to == to + from[|from|..];
    MovedHas(tree, from, to, to);
  }

  lemma MoveKeepsRooted(tree: set<Path>, from: Path, to: Path)
    requires Rooted(tree) && from in tree && to != [] && MayMove(tree, from, to)
    ensures Rooted(Moved(tree, from, to))
  {
    var after := Moved(tree, from, to);
    forall p | p in after ensures p != [] && Present(after, Parent(p)) {
      MovedHas(tree, from, to, p);
      if p in tree && !(from <= p) {
        RestStays(tree, from, to, Parent(p));
        assert !(from <= Parent(p)) by {
          assert Parent(p) <= p;
        }
      } else {
        var q :| q in tree && from <= q && p == to + q[|from|..];
        if q == from {
          assert p == to;
          RestStays(tree, from, to, Parent(to));
          if from <= Parent(to) {
            assert Parent(to) <= to;
          }
        } else {
          assert from <= Parent(q) && Parent(p) == to + Parent(q)[|from|..];
          assert Parent(q) in tree;
          MovedHas(tree, from, to, Parent(p));
        }
      }
    }
  }

  /** Everything a move needs to know about the chain above its destination. */
  lemma ChainAbove(fold: char -> char, create: bool, s: State, path: Path)
    requires path != [] && CacheSound(fold, s) && Rooted(s.tree)
    requires Ensure(fold, create, s, Parent(path)).Done?
    ensures var above := Ensure(fold, create, s, Parent(path)).state;
      && CacheSound(fold, above) && Rooted(above.tree) && s.tree <= above.tree && s.known <= above.known
      && (forall q | q in above.known && q !in s.known :: FoldedPath(fold, q) <= FoldedPath(fold, path))
  {
    EnsureKeeps(fold, create, s, Parent(path));
    var above := Ensure(fold, create, s, Parent(path)).state;
    forall q | q in above.known && q !in s.known ensures FoldedPath(fold, q) <= FoldedPath(fold, path) {
      assert q <= Parent(path);
      assert forall i | 0 <= i < |q| :: q[i] == path[i];
    }
  }

  /** A cached path that is neither the moved one nor below it. */
  predicate Unmoved(fold: char -> char, previous: Path, p: Path) {
    !(FoldedPath(fold, previous) <= FoldedPath(fold, p))
  }

  /** A move keeps the cache sound exactly when, apart from the moved path itself, nothing at or below the
      old place was cached before it. The variant that forgets descendants always keeps it sound. */
  lemma MoveKeepsCacheIff(fold: char -> char, create: bool, descendants: bool, s: State, path: Path, previous: Path)
    requires path != [] && CacheSound(fold, s) && Rooted(s.tree) && IsMove(fold, s, path, Some(previous))
    requires Applied(fold, create, descendants, s, path, Some(previous)).Done?
    ensures Rooted(Applied(fold, create, descendants, s, path, Some(previous)).state.tree)
    ensures CacheSound(fold, Applied(fold, create, descendants, s, path, Some(previous)).state) <==>
      descendants || forall p | p in s.known && p != previous :: Unmoved(fold, previous, p)
  {
    var above := Ensure(fold, create, s, Parent(path)).state;
    var from, to := FoldedPath(fold, previous), FoldedPath(fold, path);
    ChainAbove(fold, create, s, path);
    MoveKeepsRooted(above.tree, from, to);
    var after := Applied(fold, create, descendants, s, path, Some(previous)).state;
    RestStays(above.tree, from, to, to);
    forall p | p in above.known ensures FoldedPath(fold, p) in after.tree <==> Unmoved(fold, previous, p) {
      if Unmoved(fold, previous, p) {
        RestStays(above.tree, from, to, FoldedPath(fold, p));
      } else {
        NothingLeftBehind(above.tree, from, to, FoldedPath(fold, p));
      }
    }
    forall p | p in above.known && p !in s.known ensures Unmoved(fold, previous, p) {
      PrefixTransitive(from, FoldedPath(fold, p), to);
    }
    if !descendants {
      if p :| p in s.known && p != previous && !Unmoved(fold, previous, p) {
        assert p in above.known && p in after.known;
      }
    }
  }

  // ---------------------------------------------------------------- runs

  datatype Step =
    | EnsureChain(path: Path)
    | ApplyUnit(path: Path, previous: Option<Path>)
    | AddedOutside(folded: Path)
    | Reconnect

  function Take(fold: char -> char, create: bool, descendants: bool, s: State, step: Step): State {
    match step
    case EnsureChain(path) => Settled(Ensure(fold, create, s, path))
    case ApplyUnit(path, previous) => Settled(Applied(fold, create, descendants, s, path, previous))
    case AddedOutside(folded) =>
      if folded != [] && Present(s.tree, Parent(folded)) then s.(tree := s.tree + {folded}) else s
    case Reconnect => s.(known := {})
  }

  function TakeAll(fold: char -> char, create: bool, descendants: bool, s: State, steps: seq<Step>): State
    decreases |steps|
  {
    if steps == [] then s
    else TakeAll(fold, create, descendants, Take(fold, create, descendants, s, steps[0]), steps[1..])
  }

  lemma TakeKeeps(fold: char -> char, create: bool, s: State, step: Step)
    requires CacheSound(fold, s) && Rooted(s.tree)
    ensures CacheSound(fold, Take(fold, create, true, s, step)) && Rooted(Take(fold, create, true, s, step).tree)
  {
    match step {
      case EnsureChain(path) =>
        EnsureKeeps(fold, create, s, path);
      case ApplyUnit(path, previous) =>
        if path != [] {
          if IsMove(fold, s, path, previous) {
            EnsureKeeps(fold, create, s, Parent(path));
            if Applied(fold, create, true, s, path, previous).Done? {
              MoveKeepsCacheIff(fold, create, true, s, path, previous.value);
            }
          } else {
            EnsureKeeps(fold, create, s, path);
          }
        }
      case AddedOutside(_) =>
      case Reconnect =>
    }
  }

  /** If a move also forgot the cached descendants, then over every run in which nobody outside deletes or
      moves an org unit, every cached org unit exists. */
  lemma {:induction false} ForgettingDescendantsIsSound(fold: char -> char, create: bool, s: State, steps: seq<Step>)
    requires CacheSound(fold, s) && Rooted(s.tree)
    ensures CacheSound(fold, TakeAll(fold, create, true, s, steps))
    decreases |steps|
  {
    if steps != [] {
      TakeKeeps(fold, create, s, steps[0]);
      ForgettingDescendantsIsSound(fold, create, Take(fold, create, true, s, steps[0]), steps[1..]);
    }
  }

  /** As written it does not hold: with `a` and `a/b` created through the cache, renaming `a` to `c` leaves
      `a/b` cached although nothing of that name exists any more. */
  lemma RenameLeavesDescendantCached(fold: char -> char)
    requires IsCaseFold(fold) && fold('a') != fold('c')
    ensures var end := TakeAll(fold, true, false, State({}, {}), [EnsureChain(["a", "b"]), ApplyUnit(["c"], Some(["a"]))]);
      ["a", "b"] in end.known && FoldedPath(fold, ["a", "b"]) !in end.tree
  {
    var a, ab, c := ["a"], ["a", "b"], ["c"];
    var fa, fab, fc := FoldedPath(fold, a), FoldedPath(fold, ab), FoldedPath(fold, c);
    assert Parent(ab) == a && Parent(a) == [] && Parent(c) == [];
    assert fa[0][0] == fold('a') && fc[0][0] == fold('c') && fab[0][0] == fold('a');
    assert Parent(fab) == fa && Parent(fa) == [] && Parent(fc) == [];
    var first := State({a, ab}, {fa, fab});
    assert Ensure(fold, true, State({}, {}), a) == Done(State({a}, {fa}));
    assert Ensure(fold, true, State({}, {}), ab) == Done(State({a} + {ab}, {fa} + {fab}));
    assert State({a} + {ab}, {fa} + {fab}) == first;
    var steps := [EnsureChain(ab), ApplyUnit(c, Some(a))];
    assert steps[1..][0] == ApplyUnit(c, Some(a)) && steps[1..][1..] == [];
    assert IsMove(fold, first, c, Some(a));
    assert fa <= fab && !(fa <= fc) && fc !in first.tree;
    NothingLeftBehind(first.tree, fa, fc, fab);
  }
}
