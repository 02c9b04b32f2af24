/**
 * What the numbers of a sweep's report count.
 */
module RoleSweepMeaning {
  import opened Common
  import opened Evaluator
  import opened Reconciler
  import opened RoleSweep

  /** This pass added or removed something. */
  predicate Changed(o: Outcome) {
    match o
    case Applied(groupsAdded, groupsRemoved, targetsAdded, targetsRemoved) =>
      |groupsAdded| + |groupsRemoved| + |targetsAdded| + |targetsRemoved| > 0
    case _ => false
  }

  function ChangedAt(log: seq<Entry>): set<nat> {
    set i: nat | i < |log| && Changed(log[i].outcome)
  }

  /** The report counts everybody visited once, and as changed exactly those whose pass added or removed
      something. */
  lemma {:induction false} CountMeaning(log: seq<Entry>)
    ensures RoleSweep.ReportOf(log).scanned == |log|
    ensures RoleSweep.ReportOf(log).changed == |ChangedAt(log)|
  {
    if log == [] {
      assert ChangedAt(log) == {};
    } else {
      CountMeaning(log[..|log| - 1]);
      ChangedAtMore(log[..|log| - 1], log[|log| - 1]);
      assert log == log[..|log| - 1] + [log[|log| - 1]];
      if log[|log| - 1].outcome.Applied? {
        Sizes(log[|log| - 1].outcome);
      }
    }
  }

  lemma ChangedAtMore(log: seq<Entry>, last: Entry)
    ensures |ChangedAt(log + [last])| == |ChangedAt(log)| + if Changed(last.outcome) then 1 else 0
  {
    assert |log| !in ChangedAt(log);
    assert ChangedAt(log + [last]) == ChangedAt(log) + if Changed(last.outcome) then {|log|} else {};
  }

  lemma Sizes(o: Outcome)
    requires o.Applied?
    ensures WritesSomething(o) <==> Changed(o)
  {
    Size(o.groupsAdded);
    Size(o.groupsRemoved);
    Size(o.targetsAdded);
    Size(o.targetsRemoved);
  }

  lemma Size<T>(s: set<T>)
    ensures s == {} <==> |s| == 0
  {
  }
}
