/**
 * What a migration plans and when its commit is let through, in terms of the stored values and the definition;
 * and that a migration that went through has nothing left to do.
 */
module MigrationMeaning {
  import opened Common
  import opened Conversion
  import opened MigrationWalk
  import opened Migration
  import opened MigrationCommit

  function Target(def: Definition, change: Change): DataType {
    match change.dataType case Some(to) => to case None => def.dataType
  }

  function Vocabulary(def: Definition): seq<string> {
    match def.options case Some(options) => options case None => []
  }

  predicate ScopeMoves(def: Definition, change: Change) {
    change.appliesTo.Some? && change.appliesTo.value != def.appliesTo
  }

  /** What a stored value becomes. */
  function Becomes(e: Env, def: Definition, change: Change, value: Json): Result<Json, Conversion.Refusal> {
    ConvertValue(e.engine, value, def.dataType, Target(def, change), Vocabulary(def))
  }

  lemma BecomesConverted(e: Env, def: Definition, change: Change, value: Json)
    ensures Converted(e, HeaderOf(def, change), value) == Becomes(e, def, change, value)
  {
  }

  /** The plan: a change for exactly the holders whose value becomes another, or, when the scope moves, for all
      whose value becomes something; the counts; a sample of the failures with their reasons, at most fifty and
      none left out below that. */
  lemma PlanMeaning(e: Env, def: Definition, change: Change, holders: seq<Holder>, p: Planned)
    ensures var plan := PlanOver(e, def, change, holders);
      && plan.toType == Target(def, change) && plan.report.sensitive == def.sensitive
      && plan.report.populationSize == |holders| && plan.report.changedCount == |plan.changes|
      && plan.report.tripped == e.trips(|plan.changes|, |holders|)
      && (p in plan.changes <==>
            && Holder(p.userId, p.before) in holders && Becomes(e, def, change, p.before) == Ok(p.after)
            && (p.after != p.before || ScopeMoves(def, change)))
      && |plan.report.unconvertible| <= 50
      && (|plan.report.unconvertible| < 50 ==> plan.report.unconvertible == TroublesFor(e, HeaderOf(def, change), holders))
  {
    var header := HeaderOf(def, change);
    ChangesAreConversions(e, header, holders, p);
    if p in ChangesFor(e, header, holders) {
      var h :| h in holders && p in ChangeFor(e, header, h);
      BecomesConverted(e, def, change, h.value);
      assert h == Holder(p.userId, p.before);
    }
    if Holder(p.userId, p.before) in holders && Becomes(e, def, change, p.before) == Ok(p.after) {
      BecomesConverted(e, def, change, p.before);
      assert p in ChangeFor(e, header, Holder(p.userId, p.before)) <==> p.after != p.before || ScopeMoves(def, change);
      if p.after == p.before && !ScopeMoves(def, change) {
        assert p !in ChangesFor(e, header, holders);
      }
    }
  }

  /** A failure is listed for exactly the holders whose value becomes nothing, with the explained reason. */
  lemma {:induction false} TroubleMeaning(e: Env, def: Definition, change: Change, holders: seq<Holder>, u: Unconvertible)
    ensures u in TroublesFor(e, HeaderOf(def, change), holders) <==>
      && Holder(u.userId, u.value) in holders && Becomes(e, def, change, u.value).Err?
      && u.reason == e.explain(Becomes(e, def, change, u.value).error)
  {
    if holders != [] {
      var n := |holders| - 1;
      TroubleMeaning(e, def, change, holders[..n], u);
      SplitsAtLast(holders);
      BecomesConverted(e, def, change, holders[n].value);
    }
  }

  /** Everything the preview's hash pins: the definition's id, type, scope and options, where the change leads,
      and every holder with their value. */
  lemma HashPins(
    e: Env, def: Definition, change: Change, holders: seq<Holder>, def': Definition, change': Change, holders': seq<Holder>)
    requires Sound(e.digester)
    requires (forall x | x in holders :: Plain(x.userId)) && (forall x | x in holders' :: Plain(x.userId))
    ensures PlanOver(e, def, change, holders).report.previewHash == PlanOver(e, def', change', holders').report.previewHash
      <==>
        && def.id == def'.id && def.dataType == def'.dataType && def.appliesTo == def'.appliesTo
        && def.options == def'.options && Target(def, change) == Target(def', change')
        && (match change.appliesTo case Some(to) => to case None => def.appliesTo)
           == (match change'.appliesTo case Some(to) => to case None => def'.appliesTo)
        && holders == holders'
  {
    if PlanOver(e, def, change, holders).report.previewHash == PlanOver(e, def', change', holders').report.previewHash {
      HashAuthorisesThisPlan(e, def, change, holders, def', change', holders');
    }
  }

  /** A commit is let through to its updates exactly when: the definition exists and is about users; the change
      names something and leaves the scope; every stored value becomes something; for a sensitive definition
      every change converts back; the hash is the one of this plan; the default, if there is one, converts; the
      validation rules fit the new type; and the blast radius is not tripped, or it is forced. */
  lemma LetThroughIff(
    e: Env, def: Option<Definition>, change: Change, holders: seq<Holder>, hash: string, force: bool)
    ensures CommitRefusal(e, def, change, holders, hash, force) == None <==>
      && def.Some? && def.value.appliesTo == UserScope
      && (change.dataType.Some? || change.appliesTo.Some?) && !ScopeMoves(def.value, change)
      && (forall h | h in holders :: Becomes(e, def.value, change, h.value).Ok?)
      && (def.value.sensitive ==> forall p | p in PlanOver(e, def.value, change, holders).changes ::
            ConvertValue(e.engine, p.after, Target(def.value, change), def.value.dataType, Vocabulary(def.value)) == Ok(p.before))
      && hash == PlanOver(e, def.value, change, holders).report.previewHash
      && (def.value.defaultValue == JNull || Becomes(e, def.value, change, def.value.defaultValue).Ok?)
      && e.rulesFit(def.value.rules, Target(def.value, change))
      && (force || !e.trips(|PlanOver(e, def.value, change, holders).changes|, |holders|))
  {
    if def.Some? {
      NoTroubleIff(e, def.value, change, holders);
      ReversibleIff(e, def.value, change, holders);
    }
  }

  ghost predicate ConvertsBack(e: Env, def: Definition, change: Change, p: Planned) {
    ConvertValue(e.engine, p.after, Target(def, change), def.dataType, Vocabulary(def)) == Ok(p.before)
  }

  ghost predicate AllConvertBack(e: Env, def: Definition, change: Change, holders: seq<Holder>) {
    forall p | p in PlanOver(e, def, change, holders).changes :: ConvertsBack(e, def, change, p)
  }

  ghost predicate AllBecomeSomething(e: Env, def: Definition, change: Change, holders: seq<Holder>) {
    forall h | h in holders :: Becomes(e, def, change, h.value).Ok?
  }

  /** A refusal is the first in the order of the checks: what cannot be authorised at all, then the hash, then
      the values, the default and the rules, and last the blast radius, the only one that can be forced. */
  lemma RefusalsInOrder(
    e: Env, def: Option<Definition>, change: Change, holders: seq<Holder>, hash: string, force: bool)
    ensures var refusal := CommitRefusal(e, def, change, holders, hash, force);
      && (refusal == Some(NoSuchDefinition) <==> def.None?)
      && (def.Some? ==>
        var d, plan := def.value, PlanOver(e, def.value, change, holders);
        var admitted := change.dataType.Some? || change.appliesTo.Some?;
        && (refusal == Some(Migration.Refusal.ScopeMoves) <==> ScopeMoves(d, change))
        && (refusal == Some(EmptyChange) <==> !admitted)
        && (refusal == Some(GroupScoped) <==> admitted && !ScopeMoves(d, change) && d.appliesTo == GroupScope)
        && (admitted && !ScopeMoves(d, change) && d.appliesTo == UserScope ==>
          if d.sensitive && !AllConvertBack(e, d, change, holders) then refusal == Some(SensitiveNotReversible)
          else if hash != plan.report.previewHash then refusal == Some(HashDoesNotAuthorise)
          else if !AllBecomeSomething(e, d, change, holders) then
            refusal == Some(HasUnconvertible(|plan.report.unconvertible|))
          else if d.defaultValue != JNull && Becomes(e, d, change, d.defaultValue).Err? then
            refusal == Some(DefaultUnconvertible)
          else if !e.rulesFit(d.rules, Target(d, change)) then refusal == Some(RulesDoNotSurvive)
          else refusal == if e.trips(|plan.changes|, |holders|) && !force then Some(BlastRadius) else None))
  {
    if def.Some? {
      NoTroubleIff(e, def.value, change, holders);
      ReversibleIff(e, def.value, change, holders);
      assert AllConvertBack(e, def.value, change, holders) <==>
        AllReversible(e, def.value, Target(def.value, change), PlanOver(e, def.value, change, holders).changes);
    }
  }

  lemma NoTroubleIff(e: Env, def: Definition, change: Change, holders: seq<Holder>)
    ensures PlanOver(e, def, change, holders).report.unconvertible == [] <==>
      forall h | h in holders :: Becomes(e, def, change, h.value).Ok?
  {
    NoTroubleMeansAllConvert(e, HeaderOf(def, change), holders);
    forall h | h in holders {
      BecomesConverted(e, def, change, h.value);
    }
  }

  lemma ReversibleIff(e: Env, def: Definition, change: Change, holders: seq<Holder>)
    ensures var plan := PlanOver(e, def, change, holders);
      AllReversible(e, def, plan.toType, plan.changes) <==>
        forall p | p in plan.changes ::
          ConvertValue(e.engine, p.after, Target(def, change), def.dataType, Vocabulary(def)) == Ok(p.before)
  {
    var ps := PlanOver(e, def, change, holders).changes;
    forall i | 0 <= i < |ps|
      ensures IsReversibleConversion(e.engine, ps[i].before, def.dataType, Target(def, change), Vocabulary(def)) <==>
        ConvertValue(e.engine, ps[i].after, Target(def, change), def.dataType, Vocabulary(def)) == Ok(ps[i].before)
    {
      PlanMeaning(e, def, change, holders, ps[i]);
    }
    if AllReversible(e, def, Target(def, change), ps) {
      forall p | p in ps
        ensures ConvertValue(e.engine, p.after, Target(def, change), def.dataType, Vocabulary(def)) == Ok(p.before)
      {
        var i :| 0 <= i < |ps| && ps[i] == p;
      }
    }
  }

  // ---------------------------------------------------------------- once is enough

  lemma ConvertedIsScalar(e: Engine, value: Json, from: DataType, to: DataType, options: seq<string>)
    ensures ConvertValue(e, value, from, to, options).Ok? ==>
      var v := ConvertValue(e, value, from, to, options).value; v.JStr? || v.JNum? || v.JBool?
  {
  }

  lemma SettledBecomesItself(e: Env, def: Definition, change: Change, after: Definition, value: Json)
    requires IsMigrated(e, def, change, after) && exists before :: Becomes(e, def, change, before) == Ok(value)
    ensures Becomes(e, after, change, value) == Ok(value)
  {
    var before :| Becomes(e, def, change, before) == Ok(value);
    ConvertedIsScalar(e.engine, before, def.dataType, Target(def, change), Vocabulary(def));
  }

  /** A second preview of the same change, over the definition a commit leaves and values that have been
      converted, plans nothing and lists nothing. */
  lemma SecondPreviewPlansNothing(e: Env, def: Definition, change: Change, after: Definition, holders: seq<Holder>)
    requires IsMigrated(e, def, change, after) && !ScopeMoves(def, change)
    requires forall h | h in holders :: exists before :: Becomes(e, def, change, before) == Ok(h.value)
    ensures var plan := PlanOver(e, after, change, holders);
      plan.changes == [] && plan.report.changedCount == 0 && plan.report.unconvertible == []
  {
    var ps := PlanOver(e, after, change, holders).changes;
    forall h | h in holders ensures Becomes(e, after, change, h.value) == Ok(h.value) {
      SettledBecomesItself(e, def, change, after, h.value);
    }
    NoTroubleIff(e, after, change, holders);
    if ps != [] {
      PlanMeaning(e, after, change, holders, ps[0]);
    }
  }

  /** So after a successful commit with nobody interfering, previewing the same change again over the users as
      they are now reports that nothing is to be changed. */
  lemma CommittedMigrationIsDone(
    e: Env, def: Definition, change: Change, holders: seq<Holder>, hash: string, force: bool, after: Definition,
    now: seq<Holder>)
    requires CommitRefusal(e, Some(def), change, holders, hash, force) == None && IsMigrated(e, def, change, after)
    requires |now| == |holders| && forall i | 0 <= i < |holders| ::
      now[i].userId == holders[i].userId && Becomes(e, def, change, holders[i].value) == Ok(now[i].value)
    ensures var report := PlanOver(e, after, change, now).report;
      report.populationSize == |holders| && report.changedCount == 0 && report.unconvertible == []
  {
    LetThroughIff(e, Some(def), change, holders, hash, force);
    forall h | h in now ensures exists before :: Becomes(e, def, change, before) == Ok(h.value) {
      var i :| 0 <= i < |now| && now[i] == h;
      assert Becomes(e, def, change, holders[i].value) == Ok(h.value);
    }
    SecondPreviewPlansNothing(e, def, change, after, now);
  }
}
