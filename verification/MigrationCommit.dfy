/**
 * The writing half of a migration: one guarded update per planned holder inside one transaction, while
 * other transactions edit profiles, and the two ways of undoing it.
 */
module MigrationCommit {
  import opened Common
  import opened Conversion
  import opened Migration
  import opened MigrationWalk

  type Bag = map<Key, Json>
  type Bags = map<UserId, Bag>

  ghost predicate DistinctUsers(planned: seq<Planned>) {
    forall i, j | 0 <= i < j < |planned| :: planned[i].userId != planned[j].userId
  }

  /** The condition of the guarded update: the row is there and still holds the value planned against. */
  predicate StillHolds(bags: Bags, key: Key, p: Planned) {
    p.userId in bags && key in bags[p.userId] && bags[p.userId][key] == p.before
  }

  function UsersOf(planned: seq<Planned>): set<UserId> {
    set p | p in planned :: p.userId
  }

  // ---------------------------------------------------------------- the plan's changes

  lemma OneChange(e: Env, header: Header, h: Holder)
    ensures |ChangeFor(e, header, h)| <= 1
    ensures forall p | p in ChangeFor(e, header, h) ::
      p.userId == h.userId && p.before == h.value && Converted(e, header, h.value) == Ok(p.after)
  {
  }

  ghost predicate Ascending(rank: UserId -> int, ps: seq<Planned>) {
    forall i, j | 0 <= i < j < |ps| :: rank(ps[i].userId) < rank(ps[j].userId)
  }

  lemma AscendingMore(rank: UserId -> int, before: seq<Planned>, last: seq<Planned>)
    requires Ascending(rank, before) && |last| <= 1
    requires forall p, q | p in before && q in last :: rank(p.userId) < rank(q.userId)
    ensures Ascending(rank, before + last)
  {
  }

  /** Every change is a holder's value with its conversion, and changes keep the order of the holders. */
  lemma {:induction false} ChangesAscend(rank: UserId -> int, e: Env, header: Header, holders: seq<Holder>)
    requires forall i, j | 0 <= i < j < |holders| :: rank(holders[i].userId) < rank(holders[j].userId)
    ensures var ps := ChangesFor(e, header, holders);
      && Ascending(rank, ps)
      && (forall p | p in ps :: Holder(p.userId, p.before) in holders && Converted(e, header, p.before) == Ok(p.after))
  {
    if holders != [] {
      var n := |holders| - 1;
      ChangesAscend(rank, e, header, holders[..n]);
      OneChange(e, header, holders[n]);
      var before, last := ChangesFor(e, header, holders[..n]), ChangeFor(e, header, holders[n]);
      forall p, q | p in before && q in last ensures rank(p.userId) < rank(q.userId) {
        var k :| 0 <= k < n && holders[k] == Holder(p.userId, p.before);
      }
      AscendingMore(rank, before, last);
      forall p | p in before + last
        ensures Holder(p.userId, p.before) in holders && Converted(e, header, p.before) == Ok(p.after)
      {
        if p in last {
          assert Holder(p.userId, p.before) == holders[n];
        } else {
          assert p in before && Holder(p.userId, p.before) in holders[..n];
        }
      }
    }
  }

  /** The changes planned over the users table name each user once, and each of them is a value that user
      holds under the key together with its conversion. */
  lemma PlanMatchesTable(rank: UserId -> int, e: Env, def: Definition, change: Change, table: seq<Row>, bags: Bags)
    requires InIdOrder(rank, table)
    requires forall r | r in table :: r.id in bags && bags[r.id] == r.attributes
    ensures var ps := ChangesFor(e, HeaderOf(def, change), Holders(table, def.key));
      && DistinctUsers(ps)
      && (forall p | p in ps ::
        StillHolds(bags, def.key, p) && Converted(e, HeaderOf(def, change), p.before) == Ok(p.after))
  {
    var holders, header := Holders(table, def.key), HeaderOf(def, change);
    HoldersAscend(rank, table, def.key);
    ChangesAscend(rank, e, header, holders);
    var ps := ChangesFor(e, header, holders);
    forall i, j | 0 <= i < j < |ps| ensures ps[i].userId != ps[j].userId {
      assert rank(ps[i].userId) < rank(ps[j].userId);
    }
    forall p | p in ps ensures StillHolds(bags, def.key, p) {
      var h := Holder(p.userId, p.before);
      var r :| r in table && r.id == h.userId && def.key in r.attributes && r.attributes[def.key] == h.value;
    }
  }

  /** Whatever was edited during the walk, a plan names each user once. */
  lemma PlanNamesEachOnce(rank: UserId -> int, e: Env, def: Definition, change: Change, views: seq<seq<Row>>)
    requires AllInIdOrder(rank, views)
    ensures DistinctUsers(ChangesFor(e, HeaderOf(def, change), HoldersSeen(rank, views, def.key)))
  {
    SeenMeaning(rank, views, def.key);
    ChangesAscend(rank, e, HeaderOf(def, change), HoldersSeen(rank, views, def.key));
    var ps := ChangesFor(e, HeaderOf(def, change), HoldersSeen(rank, views, def.key));
    forall i, j | 0 <= i < j < |ps| ensures ps[i].userId != ps[j].userId {
      assert rank(ps[i].userId) < rank(ps[j].userId);
    }
  }

  // ---------------------------------------------------------------- what is written at the key

  datatype Entry = Entry(userId: UserId, value: Json)

  function Afters(planned: seq<Planned>): (entries: seq<Entry>)
    ensures |entries| == |planned|
    ensures forall i | 0 <= i < |planned| :: entries[i] == Entry(planned[i].userId, planned[i].after)
  {
    seq(|planned|, i requires 0 <= i < |planned| => Entry(planned[i].userId, planned[i].after))
  }

  /** The audited record: each affected user with the value they held. */
  function Befores(planned: seq<Planned>): (entries: seq<Entry>)
    ensures |entries| == |planned|
    ensures forall i | 0 <= i < |planned| :: entries[i] == Entry(planned[i].userId, planned[i].before)
  {
    seq(|planned|, i requires 0 <= i < |planned| => Entry(planned[i].userId, planned[i].before))
  }

  function Lookup(entries: seq<Entry>, userId: UserId): Option<Json> {
    if entries == [] then None
    else if entries[|entries| - 1].userId == userId then Some(entries[|entries| - 1].value)
    else Lookup(entries[..|entries| - 1], userId)
  }

  /** Every bag with the listed value at this one key; everything else as it is. */
  function Overlay(key: Key, bags: Bags, entries: seq<Entry>): Bags {
    map u | u in bags :: match Lookup(entries, u) case None => bags[u] case Some(v) => bags[u][key := v]
  }

  lemma {:induction false} LookupFinds(entries: seq<Entry>, i: nat)
    requires i < |entries| && forall a, b | 0 <= a < b < |entries| :: entries[a].userId != entries[b].userId
    ensures Lookup(entries, entries[i].userId) == Some(entries[i].value)
  {
    var n := |entries| - 1;
    if i < n {
      LookupFinds(entries[..n], i);
    }
  }

  lemma {:induction false} LookupMisses(entries: seq<Entry>, u: UserId)
    requires forall i | 0 <= i < |entries| :: entries[i].userId != u
    ensures Lookup(entries, u) == None
  {
    if entries != [] {
      LookupMisses(entries[..|entries| - 1], u);
    }
  }

  lemma LookupBoth(planned: seq<Planned>, u: UserId)
    requires DistinctUsers(planned)
    ensures u !in UsersOf(planned) ==> Lookup(Afters(planned), u) == None && Lookup(Befores(planned), u) == None
    ensures forall p | p in planned && p.userId == u ::
      Lookup(Afters(planned), u) == Some(p.after) && Lookup(Befores(planned), u) == Some(p.before)
  {
    if u !in UsersOf(planned) {
      LookupMisses(Afters(planned), u);
      LookupMisses(Befores(planned), u);
    }
    forall p | p in planned && p.userId == u
      ensures Lookup(Afters(planned), u) == Some(p.after) && Lookup(Befores(planned), u) == Some(p.before)
    {
      var i :| 0 <= i < |planned| && planned[i] == p;
      LookupFinds(Afters(planned), i);
      LookupFinds(Befores(planned), i);
    }
  }

  // ---------------------------------------------------------------- interleaved edits

  /** A profile edit another transaction commits: a whole new bag, or the user gone. */
  datatype Edit = Edit(userId: UserId, bag: Option<Bag>)

  datatype Step = ApplyNext | OtherEdits(edit: Edit)

  /** `bags` is what the other transactions have committed; the migration has rewritten, and so locked,
      the rows of the first `next` planned users. */
  datatype Tx = Tx(bags: Bags, next: nat, aborted: bool)

  function Edited(bags: Bags, edit: Edit): Bags {
    if edit.bag.Some? then bags[edit.userId := edit.bag.value] else bags - {edit.userId}
  }

  function LockedBy(planned: seq<Planned>, tx: Tx): set<UserId> {
    if tx.aborted || tx.next > |planned| then {} else UsersOf(planned[..tx.next])
  }

  /** An edit of a locked row waits for the migration to end. */
  function Take(key: Key, planned: seq<Planned>, tx: Tx, s: Step): Tx {
    match s
    case OtherEdits(edit) =>
      if edit.userId in LockedBy(planned, tx) then tx else tx.(bags := Edited(tx.bags, edit))
    case ApplyNext =>
      if tx.aborted || tx.next >= |planned| then tx
      else if StillHolds(tx.bags, key, planned[tx.next]) then tx.(next := tx.next + 1)
      else tx.(aborted := true)
  }

  function TakeAll(key: Key, planned: seq<Planned>, tx: Tx, steps: seq<Step>): Tx
    decreases |steps|
  {
    if steps == [] then tx else TakeAll(key, planned, Take(key, planned, tx, steps[0]), steps[1..])
  }

  predicate Succeeds(planned: seq<Planned>, tx: Tx) {
    !tx.aborted && tx.next == |planned|
  }

  /** What the directory holds once the transaction has ended. */
  function Outcome(key: Key, planned: seq<Planned>, tx: Tx): Bags {
    if Succeeds(planned, tx) then Overlay(key, tx.bags, Afters(planned)) else tx.bags
  }

  /** The rows already rewritten still hold, for everybody else, the value planned against. */
  ghost predicate Guarded(key: Key, planned: seq<Planned>, tx: Tx) {
    tx.next <= |planned| && (!tx.aborted ==> forall i | 0 <= i < tx.next :: StillHolds(tx.bags, key, planned[i]))
  }

  lemma TakeKeepsGuard(key: Key, planned: seq<Planned>, tx: Tx, s: Step)
    requires Guarded(key, planned, tx)
    ensures Guarded(key, planned, Take(key, planned, tx, s))
  {
    if s.OtherEdits? && !tx.aborted && s.edit.userId !in LockedBy(planned, tx) {
      forall i | 0 <= i < tx.next ensures planned[i].userId != s.edit.userId {
        assert planned[i] in planned[..tx.next];
      }
    }
  }

  lemma {:induction false} RunKeepsGuard(key: Key, planned: seq<Planned>, tx: Tx, steps: seq<Step>)
    requires Guarded(key, planned, tx)
    ensures Guarded(key, planned, TakeAll(key, planned, tx, steps))
    decreases |steps|
  {
    if steps != [] {
      TakeKeepsGuard(key, planned, tx, steps[0]);
      RunKeepsGuard(key, planned, Take(key, planned, tx, steps[0]), steps[1..]);
    }
  }

  /** All or nothing, whatever is edited in between: on success every planned user held the value planned
      against right up to the commit, has the converted one after it, and nothing else differs from what
      the other transactions left; otherwise nothing differs at all. */
  lemma CommitIsAllOrNothing(key: Key, planned: seq<Planned>, start: Bags, steps: seq<Step>)
    requires DistinctUsers(planned)
    ensures var end := TakeAll(key, planned, Tx(start, 0, false), steps);
      var after := Outcome(key, planned, end);
      && (!Succeeds(planned, end) ==> after == end.bags)
      && (Succeeds(planned, end) ==>
        && after.Keys == end.bags.Keys
        && (forall p | p in planned :: StillHolds(end.bags, key, p) && after[p.userId] == end.bags[p.userId][key := p.after])
        && (forall u | u in end.bags && u !in UsersOf(planned) :: after[u] == end.bags[u]))
  {
    RunKeepsGuard(key, planned, Tx(start, 0, false), steps);
    var end := TakeAll(key, planned, Tx(start, 0, false), steps);
    forall p | p in planned {
      LookupBoth(planned, p.userId);
    }
    forall u | u in end.bags {
      LookupBoth(planned, u);
    }
    if Succeeds(planned, end) {
      forall p | p in planned ensures StillHolds(end.bags, key, p) {
        var i :| 0 <= i < |planned| && planned[i] == p;
      }
    }
  }

  lemma {:induction false} UndisturbedFrom(key: Key, planned: seq<Planned>, tx: Tx, steps: seq<Step>)
    requires tx.next + |steps| == |planned| && !tx.aborted
    requires forall s | s in steps :: s.ApplyNext?
    requires forall p | p in planned :: StillHolds(tx.bags, key, p)
    ensures TakeAll(key, planned, tx, steps) == Tx(tx.bags, |planned|, false)
    decreases |steps|
  {
    if steps != [] {
      assert steps[0] in steps && planned[tx.next] in planned;
      UndisturbedFrom(key, planned, Take(key, planned, tx, steps[0]), steps[1..]);
    }
  }

  /** Nobody interferes: the migration goes through. */
  lemma UndisturbedCommitSucceeds(key: Key, planned: seq<Planned>, start: Bags)
    requires forall p | p in planned :: StillHolds(start, key, p)
    ensures Succeeds(planned, TakeAll(key, planned, Tx(start, 0, false), seq(|planned|, i => ApplyNext)))
  {
    UndisturbedFrom(key, planned, Tx(start, 0, false), seq(|planned|, i => ApplyNext));
  }

  // ---------------------------------------------------------------- the transaction itself

  /** The users table: the committed rows, and the row versions an open migration has written. */
  class UserTable {
    var rows: Bags
    var written: Bags

    constructor (bags: Bags)
      ensures rows == bags && written == map[]
    {
      rows, written := bags, map[];
    }

    /** `UPDATE ... jsonb_set ... WHERE id = $1 AND attributes -> key IS NOT DISTINCT FROM before`. */
    method ApplyOne(key: Key, planned: Planned) returns (updated: bool)
      requires planned.userId !in written
      modifies this`written
      ensures updated == StillHolds(rows, key, planned)
      ensures written == if updated then old(written)[planned.userId := rows[planned.userId][key := planned.after]]
                         else old(written)
    {
      updated := StillHolds(rows, key, planned);
      if updated {
        written := written[planned.userId := rows[planned.userId][key := planned.after]];
      }
    }

    method OtherEdits(edit: Edit)
      modifies this`rows
      ensures rows == if edit.userId in written then old(rows) else Edited(old(rows), edit)
    {
      if edit.userId !in written {
        rows := if edit.bag.Some? then rows[edit.userId := edit.bag.value] else rows - {edit.userId};
      }
    }

    method Commit()
      modifies this
      ensures rows == old(rows) + old(written) && written == map[]
    {
      rows, written := rows + written, map[];
    }

    method Rollback()
      modifies this`written
      ensures written == map[]
    {
      written := map[];
    }

    /** The open transaction stands where the machine says it does. */
    ghost predicate At(key: Key, planned: seq<Planned>, tx: Tx)
      reads this
    {
      && !tx.aborted && tx.next <= |planned| && rows == tx.bags
      && written.Keys == UsersOf(planned[..tx.next])
      && (forall i | 0 <= i < tx.next ::
        StillHolds(rows, key, planned[i]) && written[planned[i].userId] == rows[planned[i].userId][key := planned[i].after])
    }

    method LetOneEdit(edit: Edit, key: Key, planned: seq<Planned>, ghost tx: Tx)
      requires At(key, planned, tx)
      modifies this`rows
      ensures At(key, planned, Take(key, planned, tx, Step.OtherEdits(edit)))
    {
      forall k | 0 <= k < tx.next ensures planned[k].userId in written {
        assert planned[k] in planned[..tx.next];
      }
      OtherEdits(edit);
    }

    /** The edits that get in before one update. */
    method LetOthersEdit(edits: seq<Edit>, key: Key, planned: seq<Planned>, ghost start: Tx) returns (ghost tx: Tx)
      requires At(key, planned, start)
      modifies this`rows
      ensures At(key, planned, tx)
      ensures tx == TakeAll(key, planned, start, EditSteps(edits))
    {
      tx := start;
      for i := 0 to |edits|
        invariant At(key, planned, tx)
        invariant tx == TakeAll(key, planned, start, EditSteps(edits[..i]))
      {
        LetOneEdit(edits[i], key, planned, tx);
        EditStepsMore(edits[..i], edits[i]);
        assert edits[..i + 1] == edits[..i] + [edits[i]];
        TakeAllMore(key, planned, start, EditSteps(edits[..i]), Step.OtherEdits(edits[i]));
        tx := Take(key, planned, tx, Step.OtherEdits(edits[i]));
      }
      assert edits[..|edits|] == edits;
    }

    /** One update; a row that no longer holds its planned value rolls everything back. */
    method ApplyAt(key: Key, planned: seq<Planned>, i: nat, ghost start: Tx) returns (updated: bool)
      requires i < |planned| && DistinctUsers(planned) && At(key, planned, start) && start.next == i
      modifies this
      ensures var tx := Take(key, planned, start, ApplyNext);
        if updated then tx.next == i + 1 && At(key, planned, tx)
        else tx.aborted && rows == tx.bags && written == map[]
    {
      UsersOfMore(planned, i);
      assert planned[i].userId !in UsersOf(planned[..i]);
      updated := ApplyOne(key, planned[i]);
      if !updated {
        Rollback();
      }
    }

    /** The edits that get in before one update, and the update. */
    method ApplyNextPlanned(edits: seq<Edit>, key: Key, planned: seq<Planned>, i: nat, ghost start: Tx)
      returns (updated: bool, ghost tx: Tx)
      requires i < |planned| && DistinctUsers(planned) && At(key, planned, start) && start.next == i
      modifies this
      ensures tx == Take(key, planned, TakeAll(key, planned, start, EditSteps(edits)), ApplyNext)
      ensures updated ==> tx.next == i + 1 && At(key, planned, tx)
      ensures !updated ==> tx.aborted && rows == tx.bags && written == map[]
    {
      tx := LetOthersEdit(edits, key, planned, start);
      EditsKeepNext(key, planned, start, EditSteps(edits));
      updated := ApplyAt(key, planned, i, tx);
      tx := Take(key, planned, tx, ApplyNext);
    }

    /** Every planned row is written: the commit makes them all visible at once. */
    method CommitAll(key: Key, planned: seq<Planned>, ghost tx: Tx)
      requires DistinctUsers(planned) && At(key, planned, tx) && tx.next == |planned|
      modifies this
      ensures written == map[] && rows == Outcome(key, planned, tx)
    {
      assert planned[..|planned|] == planned;
      OverlayIsUpdate(key, planned, rows, written);
      Commit();
    }

    /** The updates up to the first failure, or all of them: `n` of them were tried. */
    method ApplyInTurn(key: Key, planned: seq<Planned>, edits: seq<seq<Edit>>) returns (ok: bool, ghost n: nat, ghost tx: Tx)
      requires written == map[] && DistinctUsers(planned) && |edits| == |planned|
      modifies this
      ensures n <= |planned| && Schedules(key, planned, Tx(old(rows), 0, false), edits, n, tx)
      ensures ok ==> tx.next == |planned| && At(key, planned, tx)
      ensures !ok ==> tx.aborted && rows == tx.bags && written == map[]
    {
      ghost var start := Tx(rows, 0, false);
      tx := start;
      for i := 0 to |planned|
        invariant tx.next == i && At(key, planned, tx) && Schedules(key, planned, start, edits, i, tx)
      {
        ScheduleStep(key, planned, start, edits, i, tx);
        ok, tx := ApplyNextPlanned(edits[i], key, planned, i, tx);
        n := i + 1;
        if !ok {
          return;
        }
      }
      ok, n := true, |planned|;
    }

    /** Applies the plan with other transactions' edits in between: `edits[i]` get in before the `i`-th
        update. The directory ends as the machine says. */
    method ApplyChanges(key: Key, planned: seq<Planned>, edits: seq<seq<Edit>>) returns (ok: bool, ghost steps: seq<Step>)
      requires written == map[] && DistinctUsers(planned) && |edits| == |planned|
      modifies this
      ensures written == map[] && ApplySteps(steps, planned, edits)
      ensures var end := TakeAll(key, planned, Tx(old(rows), 0, false), steps);
        rows == Outcome(key, planned, end) && (ok <==> Succeeds(planned, end))
    {
      ghost var n, tx;
      ok, n, tx := ApplyInTurn(key, planned, edits);
      if ok {
        CommitAll(key, planned, tx);
      }
      steps := StepsBefore(edits, n);
    }
  }

  /** The machine stands at `tx` once the first `n` updates have been tried. */
  ghost predicate Schedules(key: Key, planned: seq<Planned>, start: Tx, edits: seq<seq<Edit>>, n: nat, tx: Tx) {
    n <= |edits| && tx == TakeAll(key, planned, start, StepsBefore(edits, n))
  }

  lemma ScheduleStep(key: Key, planned: seq<Planned>, start: Tx, edits: seq<seq<Edit>>, i: nat, tx: Tx)
    requires i < |edits| && Schedules(key, planned, start, edits, i, tx)
    ensures Schedules(key, planned, start, edits, i + 1,
      Take(key, planned, TakeAll(key, planned, tx, EditSteps(edits[i])), ApplyNext))
  {
    TakeAllConcat(key, planned, start, StepsBefore(edits, i), EditSteps(edits[i]));
    TakeAllMore(key, planned, start, StepsBefore(edits, i) + EditSteps(edits[i]), ApplyNext);
  }

  function EditSteps(edits: seq<Edit>): seq<Step> {
    seq(|edits|, i requires 0 <= i < |edits| => Step.OtherEdits(edits[i]))
  }

  /** The schedule of the first `n` updates, each after the edits that get in before it. */
  ghost function StepsBefore(edits: seq<seq<Edit>>, n: nat): seq<Step>
    requires n <= |edits|
  {
    if n == 0 then [] else StepsBefore(edits, n - 1) + EditSteps(edits[n - 1]) + [ApplyNext]
  }

  /** The schedule of a migration that stops at its first failure, or at the end. */
  ghost predicate ApplySteps(steps: seq<Step>, planned: seq<Planned>, edits: seq<seq<Edit>>)
    requires |edits| == |planned|
  {
    exists n: nat :: n <= |planned| && steps == StepsBefore(edits, n)
  }

  lemma EditStepsMore(edits: seq<Edit>, edit: Edit)
    ensures EditSteps(edits + [edit]) == EditSteps(edits) + [Step.OtherEdits(edit)]
  {
  }

  lemma {:induction false} TakeAllConcat(key: Key, planned: seq<Planned>, tx: Tx, a: seq<Step>, b: seq<Step>)
    ensures TakeAll(key, planned, tx, a + b) == TakeAll(key, planned, TakeAll(key, planned, tx, a), b)
    decreases |a|
  {
    if a == [] {
      assert a + b == b;
    } else {
      assert (a + b)[0] == a[0] && (a + b)[1..] == a[1..] + b;
      TakeAllConcat(key, planned, Take(key, planned, tx, a[0]), a[1..], b);
    }
  }

  lemma TakeAllMore(key: Key, planned: seq<Planned>, tx: Tx, steps: seq<Step>, s: Step)
    ensures TakeAll(key, planned, tx, steps + [s]) == Take(key, planned, TakeAll(key, planned, tx, steps), s)
  {
    TakeAllConcat(key, planned, tx, steps, [s]);
    assert [s][1..] == [];
  }

  lemma {:induction false} EditsKeepNext(key: Key, planned: seq<Planned>, tx: Tx, steps: seq<Step>)
    requires forall i | 0 <= i < |steps| :: steps[i].OtherEdits?
    ensures TakeAll(key, planned, tx, steps).next == tx.next
    decreases |steps|
  {
    if steps != [] {
      EditsKeepNext(key, planned, Take(key, planned, tx, steps[0]), steps[1..]);
    }
  }

  lemma UsersOfMore(planned: seq<Planned>, i: nat)
    requires i < |planned|
    ensures UsersOf(planned[..i + 1]) == UsersOf(planned[..i]) + {planned[i].userId}
  {
    assert planned[..i + 1] == planned[..i] + [planned[i]];
  }

  lemma OverlayIsUpdate(key: Key, planned: seq<Planned>, rows: Bags, written: Bags)
    requires DistinctUsers(planned) && written.Keys == UsersOf(planned)
    requires forall i | 0 <= i < |planned| ::
      StillHolds(rows, key, planned[i]) && written[planned[i].userId] == rows[planned[i].userId][key := planned[i].after]
    ensures rows + written == Overlay(key, rows, Afters(planned))
  {
    forall u | u in rows ensures (rows + written)[u] == Overlay(key, rows, Afters(planned))[u] {
      LookupBoth(planned, u);
    }
    forall u | u in written ensures u in rows {
      var p :| p in planned && p.userId == u;
    }
  }

  // ---------------------------------------------------------------- undoing

  /** Replaying the audited values of a committed migration restores every bag exactly. */
  lemma AuditUndoes(key: Key, planned: seq<Planned>, bags: Bags)
    requires DistinctUsers(planned) && forall p | p in planned :: StillHolds(bags, key, p)
    ensures Overlay(key, Overlay(key, bags, Afters(planned)), Befores(planned)) == bags
  {
    forall u | u in bags
      ensures Overlay(key, Overlay(key, bags, Afters(planned)), Befores(planned))[u] == bags[u]
    {
      LookupBoth(planned, u);
      if u in UsersOf(planned) {
        var p :| p in planned && p.userId == u;
        assert StillHolds(bags, key, p);
        PutBack(bags[u], key, p.after);
      }
    }
  }

  /** Undo without a record: what each listed user holds now, taken back. */
  function TakenBack(back: Json -> Option<Json>, key: Key, bags: Bags, users: set<UserId>): Bags {
    map u | u in bags ::
      if u !in users || key !in bags[u] then bags[u]
      else match back(bags[u][key]) case Some(v) => bags[u][key := v] case None => bags[u]
  }

  lemma PutBack(bag: Bag, key: Key, after: Json)
    requires key in bag
    ensures bag[key := after][key := bag[key]] == bag
  {
  }

  lemma InverseUndoesOne(back: Json -> Option<Json>, key: Key, planned: seq<Planned>, bags: Bags, u: UserId)
    requires DistinctUsers(planned) && u in bags
    requires forall p | p in planned :: StillHolds(bags, key, p) && back(p.after) == Some(p.before)
    ensures TakenBack(back, key, Overlay(key, bags, Afters(planned)), UsersOf(planned))[u] == bags[u]
  {
    LookupBoth(planned, u);
    if u in UsersOf(planned) {
      var p :| p in planned && p.userId == u;
      assert StillHolds(bags, key, p);
      PutBack(bags[u], key, p.after);
    }
  }

  lemma InverseUndoes(back: Json -> Option<Json>, key: Key, planned: seq<Planned>, bags: Bags)
    requires DistinctUsers(planned)
    requires forall p | p in planned :: StillHolds(bags, key, p) && back(p.after) == Some(p.before)
    ensures TakenBack(back, key, Overlay(key, bags, Afters(planned)), UsersOf(planned)) == bags
  {
    forall u | u in bags {
      InverseUndoesOne(back, key, planned, bags, u);
    }
  }

  function BackConversion(e: Engine, from: DataType, to: DataType, options: seq<string>): Json -> Option<Json> {
    v => match ConvertValue(e, v, to, from, options) case Ok(w) => Some(w) case Err(_) => None
  }

  /** For a sensitive definition no value is recorded, and none is needed: when every change is reversible,
      converting back what the affected users hold restores every bag exactly. */
  lemma InverseConversionUndoes(
    e: Engine, key: Key, planned: seq<Planned>, bags: Bags, from: DataType, to: DataType, options: seq<string>)
    requires DistinctUsers(planned) && forall p | p in planned :: StillHolds(bags, key, p)
    requires forall p | p in planned ::
      IsReversibleConversion(e, p.before, from, to, options) && ConvertValue(e, p.before, from, to, options) == Ok(p.after)
    ensures TakenBack(BackConversion(e, from, to, options), key, Overlay(key, bags, Afters(planned)), UsersOf(planned)) == bags
  {
    forall p | p in planned ensures BackConversion(e, from, to, options)(p.after) == Some(p.before) {
      assert IsReversibleConversion(e, p.before, from, to, options);
    }
    InverseUndoes(BackConversion(e, from, to, options), key, planned, bags);
  }

  // ---------------------------------------------------------------- the commit, end to end

  /** The audit row: who was rewritten, and, unless the definition is sensitive, from what to what. */
  datatype Audit = MigrateAudit(
    before: Definition, after: Definition, users: seq<UserId>, values: Option<seq<Planned>>, forced: bool, hash: string)

  function UserIds(planned: seq<Planned>): seq<UserId> {
    seq(|planned|, i requires 0 <= i < |planned| => planned[i].userId)
  }

  /** The definition with the destination's data type and its own default carried across. */
  function MigratedDefinition(e: Env, def: Definition, toType: DataType): Definition {
    var converted := ConvertedDefault(e, def, toType);
    def.(dataType := toType, defaultValue := if converted.Ok? then converted.value else def.defaultValue)
  }

  /** The definition has the requested type, and its default converted to it; a definition without a default
      still has none, and everything else about it stays. */
  ghost predicate IsMigrated(e: Env, was: Definition, change: Change, after: Definition) {
    && after.dataType == (match change.dataType case Some(to) => to case None => was.dataType)
    && (if was.defaultValue == JNull then after.defaultValue == JNull
        else ConvertValue(e.engine, was.defaultValue, was.dataType, after.dataType,
               match was.options case Some(options) => options case None => []) == Ok(after.defaultValue))
    && after.id == was.id && after.key == was.key && after.appliesTo == was.appliesTo
    && after.options == was.options && after.rules == was.rules && after.sensitive == was.sensitive
  }

  lemma MigratedMeaning(e: Env, def: Definition, change: Change, toType: DataType)
    requires ConvertedDefault(e, def, toType).Ok? && toType == HeaderOf(def, change).toType
    ensures IsMigrated(e, def, change, MigratedDefinition(e, def, toType))
  {
  }

  class MigrationJob {
    const e: Env
    const table: UserTable
    var definitions: map<string, Definition>
    var audits: seq<Audit>

    constructor (env: Env, users: UserTable, defs: map<string, Definition>)
      ensures e == env && table == users && definitions == defs && audits == []
    {
      e, table, definitions, audits := env, users, defs, [];
    }

    /** Refuses before writing, or applies everything, or, if a value has moved, leaves everything as the
        other transactions have it. `views` are the tables the pages of the walk see, `edits` what other
        transactions commit before each update. */
    method Commit(rank: UserId -> int, views: seq<seq<Row>>, id: string, change: Change, previewHash: string, force: bool,
                  edits: seq<seq<Edit>>)
      returns (r: Result<Report, Migration.Refusal>, ghost planned: seq<Planned>, ghost steps: seq<Step>)
      requires table.written == map[] && AllInIdOrder(rank, views)
      requires id in definitions ==>
        |edits| == |ChangesFor(e, HeaderOf(definitions[id], change), HoldersSeen(rank, views, definitions[id].key))|
      modifies this, table
      ensures table.written == map[]
      ensures var def := if id in old(definitions) then Some(old(definitions)[id]) else None;
        var holders := if def.Some? then HoldersSeen(rank, views, def.value.key) else [];
        match CommitRefusal(e, def, change, holders, previewHash, force)
        case Some(refusal) =>
          r == Err(refusal) && table.rows == old(table.rows) && definitions == old(definitions) && audits == old(audits)
        case None =>
          var plan := PlanOver(e, def.value, change, holders);
          var end := TakeAll(def.value.key, planned, Tx(old(table.rows), 0, false), steps);
          var after := MigratedDefinition(e, def.value, plan.toType);
          && planned == plan.changes && |edits| == |planned| && ApplySteps(steps, planned, edits)
          && table.rows == Outcome(def.value.key, planned, end)
          && (if Succeeds(planned, end) then
                && r == Ok(plan.report) && definitions == old(definitions)[id := after]
                && audits == old(audits) + [MigrateAudit(def.value, after, UserIds(planned),
                     if def.value.sensitive then None else Some(planned), force && plan.report.tripped, previewHash)]
              else r.Err? && r.error.ValueMoved? && definitions == old(definitions) && audits == old(audits))
      ensures r.Ok? ==>
        && id in old(definitions) && definitions.Keys == old(definitions).Keys
        && (forall k | k in definitions && k != id :: definitions[k] == old(definitions)[k])
        && IsMigrated(e, old(definitions)[id], change, definitions[id])
        && |audits| == |old(audits)| + 1 && audits[..|old(audits)|] == old(audits)
        && audits[|old(audits)|].before == old(definitions)[id] && audits[|old(audits)|].after == definitions[id]
    {
      planned, steps := [], [];
      var prepared := Prepare(rank, views, id, change, previewHash, force);
      if prepared.Err? {
        r := Err(prepared.error);
        return;
      }
      PlanNamesEachOnce(rank, e, definitions[id], change, views);
      planned := prepared.value.changes;
      MigratedMeaning(e, definitions[id], change, prepared.value.toType);
      r, steps := Write(id, prepared.value, previewHash, force, edits);
    }

    /** The writes of one plan: the values, the definition and the audit row, or none of them. */
    method Write(id: string, plan: Plan, previewHash: string, force: bool, edits: seq<seq<Edit>>)
      returns (r: Result<Report, Migration.Refusal>, ghost steps: seq<Step>)
      requires table.written == map[] && id in definitions
      requires DistinctUsers(plan.changes) && |edits| == |plan.changes|
      modifies this, table
      ensures table.written == map[] && ApplySteps(steps, plan.changes, edits)
      ensures var def := old(definitions)[id];
        var end := TakeAll(def.key, plan.changes, Tx(old(table.rows), 0, false), steps);
        var after := MigratedDefinition(e, def, plan.toType);
        && table.rows == Outcome(def.key, plan.changes, end)
        && (if Succeeds(plan.changes, end) then
              && r == Ok(plan.report) && definitions == old(definitions)[id := after]
              && audits == old(audits) + [MigrateAudit(def, after, UserIds(plan.changes),
                   if def.sensitive then None else Some(plan.changes), force && plan.report.tripped, previewHash)]
            else r.Err? && r.error.ValueMoved? && definitions == old(definitions) && audits == old(audits))
    {
      var def := definitions[id];
      var ok;
      ok, steps := table.ApplyChanges(def.key, plan.changes, edits);
      if !ok {
        r := Err(ValueMoved(def.key));
        return;
      }
      var after := MigratedDefinition(e, def, plan.toType);
      definitions := definitions[id := after];
      audits := audits + [MigrateAudit(def, after, UserIds(plan.changes),
        if def.sensitive then None else Some(plan.changes), force && plan.report.tripped, previewHash)];
      r := Ok(plan.report);
    }

    /** Everything before the first write: the refusals that need no population, the plan, and the
        refusals that depend on it. */
    method Prepare(rank: UserId -> int, views: seq<seq<Row>>, id: string, change: Change, previewHash: string, force: bool)
      returns (r: Result<Plan, Migration.Refusal>)
      requires AllInIdOrder(rank, views)
      ensures var def := if id in definitions then Some(definitions[id]) else None;
        var holders := if def.Some? then HoldersSeen(rank, views, def.value.key) else [];
        match CommitRefusal(e, def, change, holders, previewHash, force)
        case Some(refusal) => r == Err(refusal)
        case None => r == Ok(PlanOver(e, def.value, change, holders))
    {
      if id !in definitions {
        return Err(NoSuchDefinition);
      }
      var def := definitions[id];
      if change.appliesTo.Some? && change.appliesTo.value != def.appliesTo {
        return Err(ScopeMoves);
      }
      var refusal := PlanRefusal(Some(def), change);
      if refusal.Some? {
        return Err(refusal.value);
      }
      QueriesArePaged(rank, views, def.key, PAGE_SIZE);
      var holders := WalkHolders(rank, Queries(rank, views, def.key), |views|, PAGE_SIZE);
      var plan := PlanWalk(e, def, change, holders);
      refusal := Guard(def, plan, previewHash, force);
      r := if refusal.Some? then Err(refusal.value) else Ok(plan);
    }

    /** The refusals that depend on the plan, in order. */
    method Guard(def: Definition, plan: Plan, previewHash: string, force: bool) returns (refusal: Option<Migration.Refusal>)
      ensures refusal ==
        if def.sensitive && !AllReversible(e, def, plan.toType, plan.changes) then Some(SensitiveNotReversible)
        else if plan.report.previewHash != previewHash then Some(HashDoesNotAuthorise)
        else if plan.report.unconvertible != [] then Some(HasUnconvertible(|plan.report.unconvertible|))
        else if ConvertedDefault(e, def, plan.toType).Err? then Some(DefaultUnconvertible)
        else if !e.rulesFit(def.rules, plan.toType) then Some(RulesDoNotSurvive)
        else if plan.report.tripped && !force then Some(BlastRadius)
        else None
    {
      if def.sensitive && !AllReversible(e, def, plan.toType, plan.changes) {
        return Some(SensitiveNotReversible);
      }
      if plan.report.previewHash != previewHash {
        return Some(HashDoesNotAuthorise);
      }
      if plan.report.unconvertible != [] {
        return Some(HasUnconvertible(|plan.report.unconvertible|));
      }
      var defaultValue := ConvertedDefault(e, def, plan.toType);
      if defaultValue.Err? {
        return Some(DefaultUnconvertible);
      }
      if !e.rulesFit(def.rules, plan.toType) {
        return Some(RulesDoNotSurvive);
      }
      if plan.report.tripped && !force {
        return Some(BlastRadius);
      }
      refusal := None;
    }
  }

  lemma ConvertedByDefinition(e: Env, def: Definition, change: Change, value: Json)
    ensures Converted(e, HeaderOf(def, change), value)
      == ConvertValue(e.engine, value, def.dataType, HeaderOf(def, change).toType, OptionsOf(def))
  {
  }

  lemma GuardsPassed(e: Env, def: Definition, change: Change, holders: seq<Holder>, hash: string, force: bool)
    requires CommitRefusal(e, Some(def), change, holders, hash, force) == None
    ensures TroublesFor(e, HeaderOf(def, change), holders) == []
    ensures def.sensitive ==>
      AllReversible(e, def, HeaderOf(def, change).toType, ChangesFor(e, HeaderOf(def, change), holders))
  {
  }

  /** A commit that gets past its guards has planned only values that convert, and for a sensitive
      definition only values that convert back. */
  lemma PastTheGuards(
    rank: UserId -> int, e: Env, def: Definition, change: Change, table: seq<Row>, bags: Bags, hash: string, force: bool)
    requires InIdOrder(rank, table) && forall r | r in table :: r.id in bags && bags[r.id] == r.attributes
    requires CommitRefusal(e, Some(def), change, Holders(table, def.key), hash, force) == None
    ensures var header := HeaderOf(def, change);
      var ps := ChangesFor(e, header, Holders(table, def.key));
      && (forall r | r in table && def.key in r.attributes :: Converted(e, header, r.attributes[def.key]).Ok?)
      && DistinctUsers(ps) && (forall p | p in ps :: StillHolds(bags, def.key, p))
      && (def.sensitive ==> forall p | p in ps ::
            && IsReversibleConversion(e.engine, p.before, def.dataType, header.toType, OptionsOf(def))
            && ConvertValue(e.engine, p.before, def.dataType, header.toType, OptionsOf(def)) == Ok(p.after))
  {
    var header, holders := HeaderOf(def, change), Holders(table, def.key);
    GuardsPassed(e, def, change, holders, hash, force);
    PlanMatchesTable(rank, e, def, change, table, bags);
    HoldersAscend(rank, table, def.key);
    NoTroubleMeansAllConvert(e, header, holders);
    forall r | r in table && def.key in r.attributes ensures Converted(e, header, r.attributes[def.key]).Ok? {
      assert Holder(r.id, r.attributes[def.key]) in holders;
    }
    var ps := ChangesFor(e, header, holders);
    if def.sensitive {
      forall p | p in ps
        ensures IsReversibleConversion(e.engine, p.before, def.dataType, header.toType, OptionsOf(def))
        ensures ConvertValue(e.engine, p.before, def.dataType, header.toType, OptionsOf(def)) == Ok(p.after)
      {
        var i :| 0 <= i < |ps| && ps[i] == p;
        ConvertedByDefinition(e, def, change, p.before);
      }
    }
  }
}
