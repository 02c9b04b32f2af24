/**
 * The whole apply of one user: the org units above the entry are confirmed or created, one write each, and
 * then the entry is created or updated. The connection may drop after any of these writes.
 */
module AdApply {
  import opened Common
  import opened Dn
  import opened OrgUnitCache
  import opened AdUser

  /** The org units, with the connection's cache of them, and the entries. */
  datatype Domain = Domain(units: OrgUnitCache.State, entries: seq<Entry>)

  // ---------------------------------------------------------------- the org units to be created

  /** The levels of a path that the walk finds neither cached nor in the tree, from the root. */
  function Missing(fold: char -> char, s: OrgUnitCache.State, path: Path): seq<Path> {
    if path == [] then []
    else
      Missing(fold, s, Parent(path))
      + if path in s.known || FoldedPath(fold, path) in s.tree then [] else [FoldedPath(fold, path)]
  }

  function Elements(paths: seq<Path>): set<Path> {
    set p | p in paths
  }

  /** All levels of a path. */
  function Levels(fold: char -> char, path: Path): set<Path> {
    if path == [] then {} else Levels(fold, Parent(path)) + {FoldedPath(fold, path)}
  }

  lemma {:induction false} LevelsAreShort(fold: char -> char, path: Path)
    ensures forall p | p in Levels(fold, path) :: 1 <= |p| <= |path|
  {
    if path != [] {
      LevelsAreShort(fold, Parent(path));
    }
  }

  /** Creating what is missing completes the levels of the path. */
  lemma {:induction false} MissingCompletes(fold: char -> char, s: OrgUnitCache.State, path: Path)
    requires CacheSound(fold, s)
    ensures s.tree + Elements(Missing(fold, s, path)) == s.tree + Levels(fold, path)
  {
    if path != [] {
      var above, p := Missing(fold, s, Parent(path)), FoldedPath(fold, path);
      MissingCompletes(fold, s, Parent(path));
      assert Elements(above + [p]) == Elements(above) + {p};
      assert above + [] == above;
    }
  }

  /** The last level, once those above it are there. */
  lemma LastLevel(fold: char -> char, create: bool, s: OrgUnitCache.State, above: OrgUnitCache.State, path: Path)
    requires path != [] && CacheSound(fold, s) && Present(above.tree, FoldedPath(fold, Parent(path)))
    requires above.tree == s.tree + Levels(fold, Parent(path)) && s.known <= above.known
    requires forall q | q in above.known :: q in s.known || |q| < |path|
    ensures var o, p := EnsureOne(fold, create, above, path), FoldedPath(fold, path);
      if path in s.known || p in s.tree then o.Done? && o.state.tree == above.tree
      else if create then o.Done? && o.state.tree == above.tree + {p}
      else o == Failed(above.tree)
  {
    LevelsAreShort(fold, Parent(path));
    assert FoldedPath(fold, path) !in Levels(fold, Parent(path));
    assert Parent(FoldedPath(fold, path)) == FoldedPath(fold, Parent(path));
  }

  /** The walk succeeds exactly when it may create or finds nothing missing, and then all levels are there.
      A walk that fails has written nothing. */
  lemma {:induction false} EnsureCreatesMissing(fold: char -> char, create: bool, s: OrgUnitCache.State, path: Path)
    requires CacheSound(fold, s) && Rooted(s.tree)
    ensures var o := Ensure(fold, create, s, path);
      if create || Missing(fold, s, path) == []
      then o.Done? && o.state.tree == s.tree + Levels(fold, path)
      else o == Failed(s.tree)
  {
    if path != [] {
      var above, p := Missing(fold, s, Parent(path)), FoldedPath(fold, path);
      EnsureCreatesMissing(fold, create, s, Parent(path));
      if create || above == [] {
        EnsureKeeps(fold, create, s, Parent(path));
        var o := Ensure(fold, create, s, Parent(path));
        LastLevel(fold, create, s, o.state, path);
        MissingCompletes(fold, s, Parent(path));
        assert above == [] ==> o.state.tree == s.tree;
        assert s.tree + Levels(fold, path) == o.state.tree + {p};
        assert p in s.tree ==> o.state.tree + {p} == o.state.tree;
      }
    }
  }

  /** A sound cache does not change what is missing. */
  lemma {:induction false} MissingWithoutCache(fold: char -> char, s: OrgUnitCache.State, path: Path)
    requires CacheSound(fold, s)
    ensures Missing(fold, s, path) == Missing(fold, OrgUnitCache.State({}, s.tree), path)
  {
    if path != [] {
      MissingWithoutCache(fold, s, Parent(path));
    }
  }

  /** The first writes of a walk are the writes of a walk that stops earlier. */
  lemma {:induction false} FirstOfMissing(fold: char -> char, s: OrgUnitCache.State, path: Path, m: nat) returns (upTo: Path)
    requires m <= |Missing(fold, s, path)|
    ensures Missing(fold, s, path)[..m] == Missing(fold, s, upTo) && upTo <= path
  {
    if m == |Missing(fold, s, path)| {
      upTo := path;
    } else {
      upTo := FirstOfMissing(fold, s, Parent(path), m);
      assert Parent(path) <= path;
    }
  }

  /** At each level of a walk that may create, exactly the levels missing so far have been written, and
      these are the first of all that are missing. */
  lemma WalkWritesMissing(fold: char -> char, s: OrgUnitCache.State, path: Path, i: nat)
    requires CacheSound(fold, s) && Rooted(s.tree) && i <= |path|
    ensures var o := Ensure(fold, true, s, path[..i]);
      o.Done? && o.state.tree == s.tree + Elements(Missing(fold, s, path[..i]))
    ensures Missing(fold, s, path[..i]) <= Missing(fold, s, path)
  {
    EnsureCreatesMissing(fold, true, s, path[..i]);
    MissingCompletes(fold, s, path[..i]);
    MissingGrows(fold, s, path, i);
  }

  lemma {:induction false} MissingGrows(fold: char -> char, s: OrgUnitCache.State, path: Path, i: nat)
    requires i <= |path|
    ensures Missing(fold, s, path[..i]) <= Missing(fold, s, path)
    decreases |path|
  {
    if i < |path| {
      assert Parent(path)[..i] == path[..i];
      MissingGrows(fold, s, Parent(path), i);
    } else {
      assert path[..i] == path;
    }
  }

  // ---------------------------------------------------------------- a whole apply

  /** What an apply leaves, and whether it succeeds. The directory refuses to put an entry into an org unit
      that does not exist; that, like a refused creation, is an error and drops the connection. */
  function Completed(site: Site, create: bool, d: Domain, desired: DesiredUser, newGuid: Guid): (Domain, bool) {
    match Ensure(site.fold, create, d.units, desired.path)
    case Failed(tree) => (Domain(OrgUnitCache.State({}, tree), d.entries), false)
    case Done(s) =>
      var i, goal := FindExisting(site, d.entries, desired), GoalOf(site, desired);
      if Present(s.tree, FoldedPath(site.fold, desired.path)) || InPlace(site, d.entries, desired) then
        (Domain(s, AdUser.Applied(site, d.entries, desired, newGuid)), true)
      else if i == |d.entries| then (Domain(OrgUnitCache.State({}, s.tree), d.entries), false)
      else (Domain(OrgUnitCache.State({}, s.tree), d.entries[i := AfterModify(d.entries[i], goal)]), false)
  }

  /** The entry exists and is not to be moved. */
  predicate InPlace(site: Site, entries: seq<Entry>, desired: DesiredUser) {
    var i := FindExisting(site, entries, desired);
    i < |entries| && DnEquals(site.fold, entries[i].dn, GoalOf(site, desired).dn)
  }

  /** The domain when the connection drops after `k` writes: org units first, then the entry's. Where
      creation is off and something is missing there is no write at all. */
  function StoppedAfter(site: Site, create: bool, d: Domain, desired: DesiredUser, newGuid: Guid, k: nat): Domain {
    var missing := Missing(site.fold, d.units, desired.path);
    if !create && missing != [] then d.(units := OrgUnitCache.State({}, d.units.tree))
    else
      var created := if k < |missing| then missing[..k] else missing;
      Domain(OrgUnitCache.State({}, d.units.tree + Elements(created)),
             if k <= |missing| then d.entries
             else AppliedUpTo(site, d.entries, desired, newGuid, k - |missing|))
  }

  /** The connector: its org units with their cache, and its users. */
  class AdConnector {
    const units: OrgUnits
    const users: Connector

    constructor (orgUnits: OrgUnits, connector: Connector)
      ensures units == orgUnits && users == connector
    {
      units, users := orgUnits, connector;
    }

    function Now(): Domain
      reads units, users
    {
      Domain(units.Now(), users.entries)
    }

    /** The chain above the entry is walked first, then the entry is written. */
    method Apply(desired: DesiredUser, newGuid: Guid) returns (ok: bool, externalId: Guid)
      requires units.fold == users.site.fold
      modifies units, users
      ensures (Now(), ok) == Completed(users.site, units.createMissing, old(Now()), desired, newGuid)
      ensures var i := FindExisting(users.site, old(users.entries), desired);
        ok ==> externalId == if i == |old(users.entries)| then newGuid else old(users.entries)[i].guid
    {
      externalId := "";
      var site, i := users.site, FindExisting(users.site, users.entries, desired);
      ok := units.EnsureOrgUnitChain(desired.path);
      if !ok {
        return;
      }
      if Present(units.tree, FoldedPath(site.fold, desired.path)) || InPlace(site, users.entries, desired) {
        externalId := users.Apply(desired, newGuid);
      } else {
        if i < |users.entries| {
          users.entries := users.entries[i := AfterModify(users.entries[i], GoalOf(site, desired))];
        }
        units.known := {};
        ok := false;
      }
    }
  }

  // ---------------------------------------------------------------- with a sound cache

  /** With a sound cache an apply succeeds exactly when it may create org units or none is missing; it then
      creates the missing ones and applies the entry, and otherwise it writes nothing. */
  lemma SucceedsIff(site: Site, create: bool, d: Domain, desired: DesiredUser, newGuid: Guid)
    requires CacheSound(site.fold, d.units) && Rooted(d.units.tree)
    ensures var missing := Missing(site.fold, d.units, desired.path);
      var (after, ok) := Completed(site, create, d, desired, newGuid);
      && (ok <==> create || missing == [])
      && after.units.tree == (if ok then d.units.tree + Levels(site.fold, desired.path) else d.units.tree)
      && after.entries == (if ok then AdUser.Applied(site, d.entries, desired, newGuid) else d.entries)
  {
    EnsureCreatesMissing(site.fold, create, d.units, desired.path);
    EnsureKeeps(site.fold, create, d.units, desired.path);
    MissingCompletes(site.fold, d.units, desired.path);
  }

  /** After any of the writes the org units still form a tree, and together with what is then missing they
      make up the same levels. */
  lemma StoppedUnits(site: Site, create: bool, d: Domain, desired: DesiredUser, newGuid: Guid, k: nat)
    requires CacheSound(site.fold, d.units) && Rooted(d.units.tree)
    ensures var units := StoppedAfter(site, create, d, desired, newGuid, k).units;
      && CacheSound(site.fold, units) && Rooted(units.tree) && d.units.tree <= units.tree
      && units.tree <= d.units.tree + Levels(site.fold, desired.path)
      && (!create ==> units.tree == d.units.tree)
  {
    var missing := Missing(site.fold, d.units, desired.path);
    if create {
      FirstUnits(site.fold, d.units, desired.path, if k < |missing| then k else |missing|);
      assert missing[..|missing|] == missing;
    } else {
      assert Elements([]) == {};
    }
  }

  lemma FirstUnits(fold: char -> char, s: OrgUnitCache.State, path: Path, m: nat)
    requires CacheSound(fold, s) && Rooted(s.tree) && m <= |Missing(fold, s, path)|
    ensures var tree := s.tree + Elements(Missing(fold, s, path)[..m]);
      Rooted(tree) && tree <= s.tree + Levels(fold, path)
  {
    var upTo := FirstOfMissing(fold, s, path, m);
    EnsureCreatesMissing(fold, true, s, upTo);
    EnsureKeeps(fold, true, s, upTo);
    MissingCompletes(fold, s, upTo);
    MissingCompletes(fold, s, path);
    assert Elements(Missing(fold, s, path)[..m]) <= Elements(Missing(fold, s, path));
  }

  /** Stopped after any prefix of all its writes, org units included, and run again, apply ends in the
      directory an uninterrupted apply leaves, and succeeds or fails like it. `again` is the id the directory
      would give to an entry created in the second run. */
  lemma InterruptedWholeApplyConverges(
    site: Site, create: bool, d: Domain, desired: DesiredUser, newGuid: Guid, k: nat, again: Guid)
    requires CacheSound(site.fold, d.units) && Rooted(d.units.tree)
    requires WellBehaved(site) && AvoidsReserved(GoalOf(site, desired)) && CLASS !in GoalOf(site, desired).stale
    requires desired.existingId != Some(newGuid)
    requires FindExisting(site, d.entries, desired) == |d.entries| && k <= |Missing(site.fold, d.units, desired.path)|
      ==> again == newGuid
    ensures var stopped := StoppedAfter(site, create, d, desired, newGuid, k);
      var (end, ok) := Completed(site, create, stopped, desired, again);
      var (whole, wholeOk) := Completed(site, create, d, desired, newGuid);
      end.units.tree == whole.units.tree && end.entries == whole.entries && ok == wholeOk
  {
    var missing := Missing(site.fold, d.units, desired.path);
    var stopped := StoppedAfter(site, create, d, desired, newGuid, k);
    StoppedUnits(site, create, d, desired, newGuid, k);
    SucceedsIff(site, create, d, desired, newGuid);
    SucceedsIff(site, create, stopped, desired, again);
    MissingWithoutCache(site.fold, d.units, desired.path);
    if create || missing == [] {
      InterruptedApplyConverges(site, d.entries, desired, newGuid, if k <= |missing| then 0 else k - |missing|, again);
      NothingAppliedYet(site, d.entries, desired, newGuid);
    }
  }

  /** After the last of the writes the directory is the one a completed apply leaves. */
  lemma StoppedAtTheEnd(site: Site, create: bool, d: Domain, desired: DesiredUser, newGuid: Guid, k: nat)
    requires CacheSound(site.fold, d.units) && Rooted(d.units.tree)
    requires k >= |Missing(site.fold, d.units, desired.path)| + 3
    ensures var stopped := StoppedAfter(site, create, d, desired, newGuid, k);
      var (whole, _) := Completed(site, create, d, desired, newGuid);
      stopped.units.tree == whole.units.tree && stopped.entries == whole.entries
  {
    SucceedsIff(site, create, d, desired, newGuid);
    MissingCompletes(site.fold, d.units, desired.path);
    var i, goal := FindExisting(site, d.entries, desired), GoalOf(site, desired);
    if i < |d.entries| {
      UpdateWritesReachUpdated(site, d.entries[i], goal);
      assert |UpdateWrites(site, d.entries[i], goal)| <= 3;
      var ws := UpdateWrites(site, d.entries[i], goal);
      assert ws[..|ws|] == ws;
    }
  }

  lemma NothingAppliedYet(site: Site, entries: seq<Entry>, desired: DesiredUser, newGuid: Guid)
    ensures AppliedUpTo(site, entries, desired, newGuid, 0) == entries
  {
    var i := FindExisting(site, entries, desired);
    if i < |entries| {
      var ws := UpdateWrites(site, entries[i], GoalOf(site, desired));
      assert (if 0 < |ws| then ws[..0] else ws) == [];
    }
  }

  // ---------------------------------------------------------------- with a cache that has gone stale

  lemma {:induction false} WalkKeepsRooted(fold: char -> char, create: bool, s: OrgUnitCache.State, path: Path)
    requires Rooted(s.tree)
    ensures Rooted(OrgUnitCache.Settled(Ensure(fold, create, s, path)).tree)
  {
    if path != [] {
      WalkKeepsRooted(fold, create, s, Parent(path));
    }
  }

  /** An apply that is refused because the cache named org units that are gone drops the cache with the
      connection; where org units may be created the next apply succeeds, and ends in the same entry as if
      the cache had been sound. */
  lemma RefusalIsFinishedByTheNext(site: Site, d: Domain, desired: DesiredUser, newGuid: Guid)
    requires Rooted(d.units.tree)
    requires WellBehaved(site) && AvoidsReserved(GoalOf(site, desired))
    ensures var (refused, ok) := Completed(site, true, d, desired, newGuid);
      var (end, ok') := Completed(site, true, refused, desired, newGuid);
      !ok ==> ok' && end.entries == AdUser.Applied(site, d.entries, desired, newGuid)
  {
    var (refused, ok) := Completed(site, true, d, desired, newGuid);
    WalkKeepsRooted(site.fold, true, d.units, desired.path);
    if !ok {
      SucceedsIff(site, true, refused, desired, newGuid);
      var i, goal := FindExisting(site, d.entries, desired), GoalOf(site, desired);
      if refused.entries != d.entries {
        var e1 := AfterModify(d.entries[i], goal);
        ModifyIsFirst(site, d.entries[i], goal);
        StoppedEntryIsFinished(site, d.entries, desired, |ModifyWrites(d.entries[i], goal)|, newGuid);
      }
    }
  }

  lemma ModifyIsFirst(site: Site, e: Entry, goal: Goal)
    ensures var n := |ModifyWrites(e, goal)|;
      n <= |UpdateWrites(site, e, goal)| && ExecuteAll(site, e, UpdateWrites(site, e, goal)[..n]) == AfterModify(e, goal)
  {
    WritesByStage(site, e, goal);
    StageModify(site, e, goal);
    assert UpdateWrites(site, e, goal)[..|ModifyWrites(e, goal)|] == ModifyWrites(e, goal);
  }
}
