/**
 * What a committed migration leaves under the key. The walk is several queries and the updates guard only
 * the values that were planned, so a value stored behind the walk is not converted: when exactly none is
 * left.
 */
module MigrationLeftovers {
  import opened Common
  import opened Conversion
  import opened MigrationWalk
  import opened Migration
  import opened MigrationCommit

  /** The value is what some value converts to. */
  ghost predicate IsConverted(e: Env, header: Header, value: Json) {
    exists before :: Converted(e, header, before) == Ok(value)
  }

  /** Everything stored under the key has been converted. */
  ghost predicate AllConverted(e: Env, header: Header, key: Key, bags: Bags) {
    forall u | u in bags && key in bags[u] :: IsConverted(e, header, bags[u][key])
  }

  /** The walk has seen this user with the value they hold now. */
  predicate SeenAsIs(holders: seq<Holder>, key: Key, bags: Bags, u: UserId)
    requires u in bags && key in bags[u]
  {
    Holder(u, bags[u][key]) in holders
  }

  lemma PlannedOnce(rank: UserId -> int, e: Env, header: Header, holders: seq<Holder>)
    requires Ascend(rank, holders)
    ensures DistinctUsers(ChangesFor(e, header, holders))
    ensures forall p | p in ChangesFor(e, header, holders) ::
      Holder(p.userId, p.before) in holders && Converted(e, header, p.before) == Ok(p.after)
  {
    ChangesAscend(rank, e, header, holders);
    var ps := ChangesFor(e, header, holders);
    forall i, j | 0 <= i < j < |ps| ensures ps[i].userId != ps[j].userId {
      assert rank(ps[i].userId) < rank(ps[j].userId);
    }
  }

  /** A value the walk has seen and not planned to change converts to itself. */
  lemma UnplannedIsItsOwnConversion(
    rank: UserId -> int, e: Env, def: Definition, change: Change, holders: seq<Holder>, hash: string, force: bool,
    h: Holder)
    requires Ascend(rank, holders) && h in holders
    requires CommitRefusal(e, Some(def), change, holders, hash, force) == None
    requires h.userId !in UsersOf(ChangesFor(e, HeaderOf(def, change), holders))
    ensures Converted(e, HeaderOf(def, change), h.value) == Ok(h.value)
  {
    var header := HeaderOf(def, change);
    GuardsPassed(e, def, change, holders, hash, force);
    NoTroubleMeansAllConvert(e, header, holders);
    var after := Converted(e, header, h.value).value;
    if after != h.value {
      var p := Planned(h.userId, h.value, after);
      assert p in ChangeFor(e, header, h);
      ChangesAreConversions(e, header, holders, p);
    }
  }

  /** What one user holds after a successful commit: converted if planned, or seen as it is; otherwise
      whatever the other transactions left. */
  lemma HeldAfterwards(
    rank: UserId -> int, e: Env, def: Definition, change: Change, holders: seq<Holder>, hash: string, force: bool,
    start: Bags, steps: seq<Step>, u: UserId)
    requires Ascend(rank, holders) && CommitRefusal(e, Some(def), change, holders, hash, force) == None
    requires var ps := ChangesFor(e, HeaderOf(def, change), holders);
      Succeeds(ps, TakeAll(def.key, ps, Tx(start, 0, false), steps))
    ensures var header, ps := HeaderOf(def, change), ChangesFor(e, HeaderOf(def, change), holders);
      var end := TakeAll(def.key, ps, Tx(start, 0, false), steps);
      var after := Outcome(def.key, ps, end);
      && after.Keys == end.bags.Keys
      && (u in after && def.key in after[u] ==>
        && def.key in end.bags[u]
        && (SeenAsIs(holders, def.key, end.bags, u) ==> IsConverted(e, header, after[u][def.key]))
        && (!SeenAsIs(holders, def.key, end.bags, u) ==> after[u] == end.bags[u]))
      && (u in end.bags && def.key in end.bags[u] ==> def.key in after[u])
  {
    var header, ps := HeaderOf(def, change), ChangesFor(e, HeaderOf(def, change), holders);
    var end := TakeAll(def.key, ps, Tx(start, 0, false), steps);
    PlannedOnce(rank, e, header, holders);
    CommitIsAllOrNothing(def.key, ps, start, steps);
    if u in end.bags {
      if u in UsersOf(ps) {
        var p :| p in ps && p.userId == u;
        assert StillHolds(end.bags, def.key, p);
      } else if def.key in end.bags[u] && SeenAsIs(holders, def.key, end.bags, u) {
        UnplannedIsItsOwnConversion(rank, e, def, change, holders, hash, force, Holder(u, end.bags[u][def.key]));
      }
    }
  }

  /** After a successful commit no old value is left under the key exactly when, at the commit, everybody
      who holds something the walk did not see them hold (a user added or edited behind the walk) holds a
      converted value already. */
  lemma NothingOldIsLeftIff(
    rank: UserId -> int, e: Env, def: Definition, change: Change, holders: seq<Holder>, hash: string, force: bool,
    start: Bags, steps: seq<Step>)
    requires Ascend(rank, holders) && CommitRefusal(e, Some(def), change, holders, hash, force) == None
    requires var ps := ChangesFor(e, HeaderOf(def, change), holders);
      Succeeds(ps, TakeAll(def.key, ps, Tx(start, 0, false), steps))
    ensures var header, ps := HeaderOf(def, change), ChangesFor(e, HeaderOf(def, change), holders);
      var end := TakeAll(def.key, ps, Tx(start, 0, false), steps);
      AllConverted(e, header, def.key, Outcome(def.key, ps, end)) <==>
        forall u | u in end.bags && def.key in end.bags[u] && !SeenAsIs(holders, def.key, end.bags, u) ::
          IsConverted(e, header, end.bags[u][def.key])
  {
    var header, ps := HeaderOf(def, change), ChangesFor(e, HeaderOf(def, change), holders);
    var end := TakeAll(def.key, ps, Tx(start, 0, false), steps);
    var after := Outcome(def.key, ps, end);
    forall u
      ensures u in after && def.key in after[u] <==> u in end.bags && def.key in end.bags[u]
      ensures u in after && def.key in after[u] ==>
        if SeenAsIs(holders, def.key, end.bags, u) then IsConverted(e, header, after[u][def.key])
        else after[u] == end.bags[u]
    {
      HeldAfterwards(rank, e, def, change, holders, hash, force, start, steps, u);
    }
  }

  // ---------------------------------------------------------------- a user added behind the walk

  const FLAG := Definition("id", "flag", StringType, UserScope, false, None, "", JNull)
  const TO_BOOLEAN := Change(Some(BooleanType), None)
  const ANN := Holder("ann", JStr("true"))
  const BEFORE: Bags := map["ann" := map["flag" := JStr("true")]]
  const ADDED := Edit("ben", Some(map["flag" := JStr("maybe")]))

  lemma OnlyBooleansAreConverted(e: Env, value: Json)
    ensures IsConverted(e, HeaderOf(FLAG, TO_BOOLEAN), value) ==> value.JBool?
  {
  }

  /** What is planned for Ann. */
  function AnnsChange(): Planned {
    Planned("ann", JStr("true"), JBool(true))
  }

  lemma OnlyAnnIsPlanned(e: Env)
    ensures ChangesFor(e, HeaderOf(FLAG, TO_BOOLEAN), [ANN]) == [AnnsChange()]
    ensures TroublesFor(e, HeaderOf(FLAG, TO_BOOLEAN), [ANN]) == []
  {
    var header := HeaderOf(FLAG, TO_BOOLEAN);
    assert [ANN][..0] == [] && ChangesFor(e, header, []) == [];
    assert ChangeFor(e, header, ANN) == [AnnsChange()];
    NoTroubleMeansAllConvert(e, header, [ANN]);
  }

  lemma AddedBeforeTheUpdate()
    ensures TakeAll("flag", [AnnsChange()], Tx(BEFORE, 0, false), [Step.OtherEdits(ADDED), ApplyNext])
         == Tx(Edited(BEFORE, ADDED), 1, false)
  {
    var ps, steps := [AnnsChange()], [Step.OtherEdits(ADDED), ApplyNext];
    var tx := Tx(Edited(BEFORE, ADDED), 0, false);
    assert ps[..0] == [];
    assert Take("flag", ps, Tx(BEFORE, 0, false), steps[0]) == tx;
    assert StillHolds(tx.bags, "flag", ps[0]);
    assert steps[1..] == [ApplyNext] && [ApplyNext][1..] == [];
    assert TakeAll("flag", ps, tx, [ApplyNext]) == tx.(next := 1);
  }

  /** Ann's text is planned to become a boolean; before her row is updated, another transaction adds Ben. The
      migration succeeds, and Ben still holds a text under what is now a boolean attribute. */
  lemma AddedBehindTheWalkStaysOld(e: Env)
    requires e.rulesFit("", BooleanType)
    ensures var header, ps := HeaderOf(FLAG, TO_BOOLEAN), ChangesFor(e, HeaderOf(FLAG, TO_BOOLEAN), [ANN]);
      var end := TakeAll("flag", ps, Tx(BEFORE, 0, false), [Step.OtherEdits(ADDED), ApplyNext]);
      var after := Outcome("flag", ps, end);
      && CommitRefusal(e, Some(FLAG), TO_BOOLEAN, [ANN], PlanOver(e, FLAG, TO_BOOLEAN, [ANN]).report.previewHash, true) == None
      && Succeeds(ps, end) && "ben" in after && "flag" in after["ben"]
      && !IsConverted(e, header, after["ben"]["flag"])
  {
    var ps := ChangesFor(e, HeaderOf(FLAG, TO_BOOLEAN), [ANN]);
    OnlyAnnIsPlanned(e);
    AddedBeforeTheUpdate();
    CommitIsAllOrNothing("flag", ps, BEFORE, [Step.OtherEdits(ADDED), ApplyNext]);
    assert "ben" !in UsersOf(ps);
    OnlyBooleansAreConverted(e, JStr("maybe"));
  }
}
