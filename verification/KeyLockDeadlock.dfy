/**
 * Deadlocks of the protocol of `KeyLockProtocol`. Publishes take advisory locks in the order of the keys,
 * but the lock of a key is a 32-bit hash of it. Deadlock is impossible exactly when the keys that share a
 * lock id stand next to each other in the sort order.
 */
module KeyLockDeadlock {
  import opened Common
  import opened KeyLockProtocol

  // ---------------------------------------------------------------- waiting

  /** `t` cannot take its next step because `u` holds the lock it needs. */
  predicate WaitsFor(cfg: Config, s: State, t: TxId, u: TxId) {
    t in s.txs && u in s.txs && u != t &&
    var tx, other := s.txs[t], s.txs[u];
    match tx.req
    case Publish(role, keys, _) =>
      (match tx.phase
       case Start => HoldsRole(other, role)
       case Locking(n) => n < |keys| && HoldsKeyLock(cfg, other, cfg.lockId(keys[n]))
       case Scanning(rows, n, _) => n < |rows| && HoldsRow(other, Slot(rows[n], UserScope))
       case _ => false)
    case Create(slot, _) =>
      (match tx.phase
       case Start => TakesKeyLock(cfg, tx.req) && HoldsKeyLock(cfg, other, cfg.lockId(slot.key))
       case Checked => slot !in s.defs && HoldsInsert(other, slot)
       case _ => false)
    case Update(slot, _) => tx.phase.Start? && slot in s.defs && HoldsRow(other, slot)
  }

  predicate Moves(cfg: Config, s: State, t: TxId) {
    t in s.txs && !Finished(s.txs[t]) && Advance(cfg, s, t).Some?
  }

  ghost predicate WaitsInside(cfg: Config, s: State, circle: set<TxId>, t: TxId) {
    exists u :: u in circle && WaitsFor(cfg, s, t, u)
  }

  /** Every one of some transactions waits for another of them. */
  ghost predicate CircleOf(cfg: Config, s: State, circle: set<TxId>) {
    circle != {} && forall t {:trigger WaitsInside(cfg, s, circle, t)} | t in circle :: WaitsInside(cfg, s, circle, t)
  }

  ghost predicate Deadlocked(cfg: Config, s: State) {
    exists circle: set<TxId> :: CircleOf(cfg, s, circle)
  }

  // ---------------------------------------------------------------- the keys in play and their locks

  /** A request that names only these keys. */
  predicate Over(keys: set<Key>, req: Request) {
    match req
    case Publish(_, named, _) => forall k | k in named :: k in keys
    case Create(slot, _) => slot.key in keys
    case Update(slot, _) => slot.key in keys
  }

  ghost predicate StepsOver(keys: set<Key>, steps: seq<Step>) {
    forall i | 0 <= i < |steps| && steps[i].Begin? :: Over(keys, steps[i].req)
  }

  /** The order tells the keys apart. */
  ghost predicate Orders(rank: Key -> int, keys: set<Key>) {
    forall a, b | a in keys && b in keys && rank(a) == rank(b) :: a == b
  }

  /** Between two keys with one lock id there is no key with another. */
  ghost predicate Contiguous(cfg: Config, keys: set<Key>) {
    forall a, b, c | a in keys && b in keys && c in keys && cfg.sortRank(a) < cfg.sortRank(b) < cfg.sortRank(c) ::
      cfg.lockId(a) == cfg.lockId(c) ==> cfg.lockId(b) == cfg.lockId(a)
  }

  /** Keys without a collision among them are contiguous, whatever happens to other keys. */
  lemma DistinctIdsAreContiguous(cfg: Config, keys: set<Key>)
    requires forall a, b | a in keys && b in keys && cfg.lockId(a) == cfg.lockId(b) :: a == b
    ensures Contiguous(cfg, keys)
  {
  }

  // ---------------------------------------------------------------- what every run keeps

  ghost predicate Shape(cfg: Config, tx: Tx) {
    && WellFormed(cfg, tx.req)
    && (tx.phase.Locking? || tx.phase.Scanning? || tx.phase.Written? ==> tx.req.Publish?)
    && (tx.phase.KeyLocked? || tx.phase.Checked? || tx.phase.Inserted? ==> tx.req.Create?)
    && (tx.phase.RowLocked? || tx.phase.Patched? ==> tx.req.Update?)
    && (tx.req.Publish? && tx.phase.Locking? ==> tx.phase.taken <= |tx.req.keys|)
    && (tx.req.Publish? && tx.phase.Scanning? ==>
          tx.phase.locked <= |tx.phase.rows| && SortedBy(cfg.collationRank, tx.phase.rows))
  }

  ghost predicate SortedBy(rank: Key -> int, keys: seq<Key>) {
    forall i, j | 0 <= i < j < |keys| :: rank(keys[i]) < rank(keys[j])
  }

  ghost predicate Shaped(cfg: Config, s: State) {
    forall t | t in s.txs :: Shape(cfg, s.txs[t])
  }

  ghost predicate AllOver(keys: set<Key>, s: State) {
    forall t | t in s.txs :: Over(keys, s.txs[t].req)
  }

  /** The transactions are well formed, name only these keys, and never share a lock. */
  ghost predicate Sane(cfg: Config, keys: set<Key>, s: State) {
    Shaped(cfg, s) && AllOver(keys, s) && Exclusive(cfg, s)
  }

  lemma {:induction false} RowsSeenSorted(s: State, rank: Key -> int, keys: seq<Key>)
    requires SortedBy(rank, keys)
    ensures SortedBy(rank, RowsSeen(s, keys))
  {
    if keys != [] {
      RowsSeenSorted(s, rank, keys[1..]);
      var rest := RowsSeen(s, keys[1..]);
      forall i | 0 <= i < |rest| ensures rank(keys[0]) < rank(rest[i]) {
        assert rest[i] in rest;
      }
    }
  }

  lemma PublishKeepsShape(cfg: Config, s: State, t: TxId)
    requires t in s.txs && s.txs[t].req.Publish? && Shape(cfg, s.txs[t]) && AdvancePublish(cfg, s, t).Some?
    ensures Shape(cfg, AdvancePublish(cfg, s, t).value.txs[t])
  {
    RowsSeenSorted(s, cfg.collationRank, s.txs[t].req.byCollation);
  }

  lemma StepKeepsShape(cfg: Config, s: State, step: Step)
    requires Shaped(cfg, s) && Apply(cfg, s, step).Some? && (step.Begin? ==> WellFormed(cfg, step.req))
    ensures Shaped(cfg, Apply(cfg, s, step).value)
  {
    if step.Go? {
      assert Shape(cfg, s.txs[step.t]);
      if s.txs[step.t].req.Publish? {
        PublishKeepsShape(cfg, s, step.t);
      }
    }
    var s' := Apply(cfg, s, step).value;
    forall t | t in s'.txs ensures Shape(cfg, s'.txs[t]) {
      if t != step.t {
        assert Shape(cfg, s.txs[t]);
      }
    }
  }

  lemma StepKeepsOver(cfg: Config, keys: set<Key>, s: State, step: Step)
    requires AllOver(keys, s) && Apply(cfg, s, step).Some? && (step.Begin? ==> Over(keys, step.req))
    ensures AllOver(keys, Apply(cfg, s, step).value)
  {
  }

  /** Mutual exclusion needs nothing of the requests: not even that creates take their key's lock. */
  lemma StepKeepsExclusive(cfg: Config, s: State, step: Step)
    requires Exclusive(cfg, s) && Apply(cfg, s, step).Some?
    ensures Exclusive(cfg, Apply(cfg, s, step).value)
  {
    var s' := Apply(cfg, s, step).value;
    match step
    case Begin(t, req) => BeginKeepsExclusive(cfg, s, t, req);
    case Rollback(t) =>
      assert KeysTaken(cfg, s'.txs[t]) == [] && RowsTaken(s'.txs[t]) == [];
      FreeLocksKeepExclusive(cfg, s, s', t);
    case Go(t) =>
      match s.txs[t].req {
        case Publish(_, _, _) => PublishTakesFreeLocks(cfg, s, t);
        case Create(_, _) => CreateTakesFreeLocks(cfg, s, t);
        case Update(_, _) => UpdateTakesFreeLocks(cfg, s, t);
      }
      FreeLocksKeepExclusive(cfg, s, s', t);
  }

  lemma {:induction false} RunKeepsSane(cfg: Config, keys: set<Key>, s: State, steps: seq<Step>)
    requires Sane(cfg, keys, s) && StepsOk(cfg, steps) && StepsOver(keys, steps) && Run(cfg, s, steps).Some?
    ensures Sane(cfg, keys, Run(cfg, s, steps).value)
    decreases |steps|
  {
    if steps != [] {
      StepKeepsShape(cfg, s, steps[0]);
      StepKeepsOver(cfg, keys, s, steps[0]);
      StepKeepsExclusive(cfg, s, steps[0]);
      RunKeepsSane(cfg, keys, Apply(cfg, s, steps[0]).value, steps[1..]);
    }
  }

  // ---------------------------------------------------------------- the order of waiting

  /** Where a transaction stands in the global acquisition order while it waits. */
  function Rank(cfg: Config, tx: Tx): (int, int) {
    match tx.req
    case Publish(_, keys, _) =>
      (match tx.phase
       case Locking(n) => (1, if n < |keys| then cfg.sortRank(keys[n]) else 0)
       case Scanning(rows, n, _) => (2, if n < |rows| then cfg.collationRank(rows[n]) else 0)
       case _ => (0, 0))
    case Create(slot, _) => if tx.phase.Start? then (1, cfg.sortRank(slot.key)) else (3, 0)
    case Update(slot, _) => (2, cfg.collationRank(slot.key))
  }

  predicate Below(a: (int, int), b: (int, int)) {
    a.0 < b.0 || (a.0 == b.0 && a.1 < b.1)
  }

  /** Who holds the lock of `key`, while another waits for it, either waits for nobody or waits for
      something later: an earlier key of the same lock lies before it, so a key in between shares it too. */
  lemma KeyLockHolderIsAbove(cfg: Config, keys: set<Key>, s: State, u: TxId, v: TxId, key: Key)
    requires Sane(cfg, keys, s) && Orders(cfg.sortRank, keys) && Contiguous(cfg, keys)
    requires key in keys && u in s.txs && HoldsKeyLock(cfg, s.txs[u], cfg.lockId(key)) && WaitsFor(cfg, s, u, v)
    ensures Below((1, cfg.sortRank(key)), Rank(cfg, s.txs[u]))
  {
    assert Shape(cfg, s.txs[u]);
    if s.txs[u].phase.Locking? {
      LockingHolderIsAbove(cfg, keys, s, u, v, key);
    }
  }

  lemma LockingHolderIsAbove(cfg: Config, keys: set<Key>, s: State, u: TxId, v: TxId, key: Key)
    requires Orders(cfg.sortRank, keys) && Contiguous(cfg, keys) && key in keys
    requires u in s.txs && Shape(cfg, s.txs[u]) && Over(keys, s.txs[u].req) && s.txs[u].phase.Locking?
    requires HoldsKeyLock(cfg, s.txs[u], cfg.lockId(key)) && WaitsFor(cfg, s, u, v) && Exclusive(cfg, s)
    ensures Below((1, cfg.sortRank(key)), Rank(cfg, s.txs[u]))
  {
    var tx := s.txs[u];
    var next := tx.req.keys[tx.phase.taken];
    assert Apart(cfg, tx, s.txs[v]);
    assert cfg.lockId(next) != cfg.lockId(key);
    var own :| own in KeysTaken(cfg, tx) && cfg.lockId(own) == cfg.lockId(key);
    assert own in keys && next in keys && cfg.sortRank(own) < cfg.sortRank(next);
  }

  lemma RowHolderIsAbove(cfg: Config, s: State, u: TxId, v: TxId, slot: Slot)
    requires Shaped(cfg, s) && u in s.txs && HoldsRow(s.txs[u], slot) && WaitsFor(cfg, s, u, v)
    ensures Below((2, cfg.collationRank(slot.key)), Rank(cfg, s.txs[u]))
  {
    assert Shape(cfg, s.txs[u]);
    assert slot.key in RowsTaken(s.txs[u]);
  }

  /** Whoever is waited for and waits in turn, waits for something later in the order. */
  lemma WaitsForLater(cfg: Config, keys: set<Key>, s: State, t: TxId, u: TxId, v: TxId)
    requires Sane(cfg, keys, s) && Orders(cfg.sortRank, keys) && Contiguous(cfg, keys)
    requires WaitsFor(cfg, s, t, u) && WaitsFor(cfg, s, u, v)
    ensures Below(Rank(cfg, s.txs[t]), Rank(cfg, s.txs[u]))
  {
    var tx := s.txs[t];
    assert Shape(cfg, tx) && Over(keys, tx.req) && Shape(cfg, s.txs[u]);
    match tx.req
    case Publish(role, named, _) =>
      if tx.phase.Locking? {
        KeyLockHolderIsAbove(cfg, keys, s, u, v, named[tx.phase.taken]);
      } else if tx.phase.Scanning? {
        RowHolderIsAbove(cfg, s, u, v, Slot(tx.phase.rows[tx.phase.locked], UserScope));
      }
    case Create(slot, _) =>
      if tx.phase.Start? {
        KeyLockHolderIsAbove(cfg, keys, s, u, v, slot.key);
      }
    case Update(slot, _) =>
      RowHolderIsAbove(cfg, s, u, v, slot);
  }

  lemma NextInCircle(cfg: Config, keys: set<Key>, s: State, circle: set<TxId>, t: TxId) returns (u: TxId)
    requires Sane(cfg, keys, s) && Orders(cfg.sortRank, keys) && Contiguous(cfg, keys)
    requires CircleOf(cfg, s, circle) && t in circle
    ensures u in circle && t in s.txs && u in s.txs && Below(Rank(cfg, s.txs[t]), Rank(cfg, s.txs[u]))
  {
    assert WaitsInside(cfg, s, circle, t);
    u :| u in circle && WaitsFor(cfg, s, t, u);
    assert WaitsInside(cfg, s, circle, u);
    var v :| v in circle && WaitsFor(cfg, s, u, v);
    WaitsForLater(cfg, keys, s, t, u, v);
  }

  /** Following who waits for whom leads upwards for ever, so no circle of waiting is finite. */
  lemma {:induction false} NoCircle(
      cfg: Config, keys: set<Key>, s: State, circle: set<TxId>, t: TxId, passed: set<TxId>)
    requires Sane(cfg, keys, s) && Orders(cfg.sortRank, keys) && Contiguous(cfg, keys)
    requires CircleOf(cfg, s, circle) && t in circle && t in s.txs && passed <= circle && passed <= s.txs.Keys
    requires forall p | p in passed :: Below(Rank(cfg, s.txs[p]), Rank(cfg, s.txs[t]))
    ensures false
    decreases |circle - passed|
  {
    var u := NextInCircle(cfg, keys, s, circle, t);
    assert circle - (passed + {t}) == (circle - passed) - {t};
    NoCircle(cfg, keys, s, circle, u, passed + {t});
  }

  /** Whatever was begun over contiguous keys and however it was interleaved, no transactions wait on each
      other in a circle. Holds of the code as written as well as of the locking variant. */
  lemma NeverDeadlocked(cfg: Config, keys: set<Key>, s: State, steps: seq<Step>)
    requires Orders(cfg.sortRank, keys) && Contiguous(cfg, keys)
    requires s.txs == map[] && StepsOk(cfg, steps) && StepsOver(keys, steps) && Run(cfg, s, steps).Some?
    ensures !Deadlocked(cfg, Run(cfg, s, steps).value)
  {
    var end := Run(cfg, s, steps).value;
    RunKeepsSane(cfg, keys, s, steps);
    if circle: set<TxId> :| CircleOf(cfg, end, circle) {
      var t :| t in circle;
      var u := NextInCircle(cfg, keys, end, circle, t);
      NoCircle(cfg, keys, end, circle, t, {});
    }
  }

  // ---------------------------------------------------------------- standing still

  lemma PublishBlockedWaits(cfg: Config, s: State, t: TxId) returns (u: TxId)
    requires t in s.txs && s.txs[t].req.Publish? && Shape(cfg, s.txs[t]) && !Finished(s.txs[t])
    requires AdvancePublish(cfg, s, t).None?
    ensures WaitsFor(cfg, s, t, u) && !Finished(s.txs[u])
  {
    var tx := s.txs[t];
    if tx.phase.Start? {
      u :| u in s.txs && u != t && HoldsRole(s.txs[u], tx.req.role);
    } else if tx.phase.Locking? {
      u :| u in s.txs && u != t && HoldsKeyLock(cfg, s.txs[u], cfg.lockId(tx.req.keys[tx.phase.taken]));
    } else {
      u :| u in s.txs && u != t && HoldsRow(s.txs[u], Slot(tx.phase.rows[tx.phase.locked], UserScope));
    }
  }

  lemma CreateBlockedWaits(cfg: Config, s: State, t: TxId) returns (u: TxId)
    requires t in s.txs && s.txs[t].req.Create? && Shape(cfg, s.txs[t]) && !Finished(s.txs[t])
    requires AdvanceCreate(cfg, s, t).None?
    ensures WaitsFor(cfg, s, t, u) && !Finished(s.txs[u])
  {
    var slot := s.txs[t].req.slot;
    if s.txs[t].phase.Start? {
      u :| u in s.txs && u != t && HoldsKeyLock(cfg, s.txs[u], cfg.lockId(slot.key));
    } else {
      u :| u in s.txs && u != t && HoldsInsert(s.txs[u], slot);
    }
  }

  /** A transaction that cannot move waits for another, which is unfinished as well. */
  lemma BlockedWaits(cfg: Config, s: State, t: TxId) returns (u: TxId)
    requires Shaped(cfg, s) && t in s.txs && !Finished(s.txs[t]) && !Moves(cfg, s, t)
    ensures WaitsFor(cfg, s, t, u) && !Finished(s.txs[u])
  {
    var tx := s.txs[t];
    assert Shape(cfg, tx);
    match tx.req
    case Publish(_, _, _) =>
      u := PublishBlockedWaits(cfg, s, t);
    case Create(_, _) =>
      u := CreateBlockedWaits(cfg, s, t);
    case Update(slot, _) =>
      u :| u in s.txs && u != t && HoldsRow(s.txs[u], slot);
  }

  /** As long as no transactions wait in a circle, some unfinished one can take its next step. */
  lemma SomebodyMoves(cfg: Config, s: State, t: TxId)
    requires Shaped(cfg, s) && !Deadlocked(cfg, s) && t in s.txs && !Finished(s.txs[t])
    ensures exists u :: Moves(cfg, s, u)
  {
    if forall u :: !Moves(cfg, s, u) {
      var circle := set u | u in s.txs && !Finished(s.txs[u]);
      assert t in circle;
      forall v | v in circle ensures WaitsInside(cfg, s, circle, v) {
        var u := BlockedWaits(cfg, s, v);
        assert u in circle;
      }
      assert CircleOf(cfg, s, circle);
    }
  }

  // ---------------------------------------------------------------- the collision

  /** A draft of two keys, `a` before `b` in the sort order. */
  function PublishOfTwo(cfg: Config, role: RoleId, a: Key, b: Key): Request {
    Publish(role, [a, b], if cfg.collationRank(a) < cfg.collationRank(b) then [a, b] else [b, a])
  }

  /** Two publishes each take their first lock. */
  function Collision(cfg: Config, r0: RoleId, r1: RoleId, a: Key, b: Key, c: Key): seq<Step> {
    [Begin(0, PublishOfTwo(cfg, r0, a, b)), Begin(1, PublishOfTwo(cfg, r1, b, c))] + [Go(0), Go(0), Go(1), Go(1)]
  }

  function Begun(cfg: Config, r0: RoleId, r1: RoleId, a: Key, b: Key, c: Key): State {
    State(map[], map[],
      map[0 := Tx(PublishOfTwo(cfg, r0, a, b), Start), 1 := Tx(PublishOfTwo(cfg, r1, b, c), Start)])
  }

  lemma CollisionBegins(cfg: Config, r0: RoleId, r1: RoleId, a: Key, b: Key, c: Key)
    ensures var first := [Begin(0, PublishOfTwo(cfg, r0, a, b)), Begin(1, PublishOfTwo(cfg, r1, b, c))];
      Run(cfg, State(map[], map[], map[]), first) == Some(Begun(cfg, r0, r1, a, b, c))
  {
    var p, q := PublishOfTwo(cfg, r0, a, b), PublishOfTwo(cfg, r1, b, c);
    var s0 := State(map[], map[], map[]);
    var s1 := State(map[], map[], map[0 := Tx(p, Start)]);
    var s2 := Begun(cfg, r0, r1, a, b, c);
    assert Apply(cfg, s0, Begin(0, p)) == Some(s1);
    assert Apply(cfg, s1, Begin(1, q)) == Some(s2);
    assert [Begin(0, p), Begin(1, q)][1..] == [Begin(1, q)];
    assert Run(cfg, s1, [Begin(1, q)]) == Some(s2);
  }

  /** Where both publishes then stand. */
  function Collided(cfg: Config, r0: RoleId, r1: RoleId, a: Key, b: Key, c: Key): State {
    At(At(Begun(cfg, r0, r1, a, b, c), 0, Locking(1)), 1, Locking(1))
  }

  lemma FirstLocks(cfg: Config, s: State, t: TxId, role: RoleId, a: Key, b: Key)
    requires t in s.txs && s.txs[t] == Tx(PublishOfTwo(cfg, role, a, b), Start)
    requires RoleFree(s, t, role) && KeyLockFree(cfg, s, t, cfg.lockId(a))
    ensures Apply(cfg, s, Go(t)) == Some(At(s, t, Locking(0)))
    ensures Apply(cfg, At(s, t, Locking(0)), Go(t)) == Some(At(s, t, Locking(1)))
  {
    var s' := At(s, t, Locking(0));
    assert KeyLockFree(cfg, s', t, cfg.lockId(a));
    assert At(s', t, Locking(1)) == At(s, t, Locking(1));
  }

  lemma CollisionLocks(cfg: Config, r0: RoleId, r1: RoleId, a: Key, b: Key, c: Key)
    requires r0 != r1 && cfg.lockId(a) != cfg.lockId(b)
    ensures Run(cfg, Begun(cfg, r0, r1, a, b, c), [Go(0), Go(0), Go(1), Go(1)])
         == Some(Collided(cfg, r0, r1, a, b, c))
  {
    var s := Begun(cfg, r0, r1, a, b, c);
    var s' := At(s, 0, Locking(1));
    assert KeysTaken(cfg, s.txs[1]) == [];
    FirstLocks(cfg, s, 0, r0, a, b);
    assert KeysTaken(cfg, s'.txs[0]) == [a];
    FirstLocks(cfg, s', 1, r1, b, c);
    RunFour(cfg, s, At(s, 0, Locking(0)), s', At(s', 1, Locking(0)), At(s', 1, Locking(1)),
      [Go(0), Go(0), Go(1), Go(1)]);
  }

  lemma CollidedIsDeadlocked(cfg: Config, r0: RoleId, r1: RoleId, a: Key, b: Key, c: Key)
    requires cfg.lockId(a) == cfg.lockId(c)
    ensures Deadlocked(cfg, Collided(cfg, r0, r1, a, b, c))
  {
    var end := Collided(cfg, r0, r1, a, b, c);
    assert a in KeysTaken(cfg, end.txs[0]) && b in KeysTaken(cfg, end.txs[1]);
    assert HoldsKeyLock(cfg, end.txs[0], cfg.lockId(c)) && HoldsKeyLock(cfg, end.txs[1], cfg.lockId(b));
    assert WaitsFor(cfg, end, 0, 1) && WaitsFor(cfg, end, 1, 0);
    assert WaitsInside(cfg, end, {0, 1}, 0) && WaitsInside(cfg, end, {0, 1}, 1);
    assert CircleOf(cfg, end, {0, 1});
  }

  lemma PublishOfTwoIsWellFormed(cfg: Config, role: RoleId, a: Key, b: Key)
    requires cfg.sortRank(a) < cfg.sortRank(b) && cfg.collationRank(a) != cfg.collationRank(b)
    ensures WellFormed(cfg, PublishOfTwo(cfg, role, a, b))
  {
  }

  lemma CollisionIsWellFormed(cfg: Config, r0: RoleId, r1: RoleId, a: Key, b: Key, c: Key)
    requires cfg.sortRank(a) < cfg.sortRank(b) < cfg.sortRank(c)
    requires cfg.collationRank(a) != cfg.collationRank(b) && cfg.collationRank(b) != cfg.collationRank(c)
    ensures StepsOk(cfg, Collision(cfg, r0, r1, a, b, c))
  {
    var steps := Collision(cfg, r0, r1, a, b, c);
    PublishOfTwoIsWellFormed(cfg, r0, a, b);
    PublishOfTwoIsWellFormed(cfg, r1, b, c);
    forall i | 0 <= i < |steps| && steps[i].Begin? ensures WellFormed(cfg, steps[i].req) {
      assert i == 0 || i == 1;
      assert steps[i].req == if i == 0 then PublishOfTwo(cfg, r0, a, b) else PublishOfTwo(cfg, r1, b, c);
    }
  }

  lemma CollisionIsOver(cfg: Config, keys: set<Key>, r0: RoleId, r1: RoleId, a: Key, b: Key, c: Key)
    requires a in keys && b in keys && c in keys
    ensures StepsOver(keys, Collision(cfg, r0, r1, a, b, c))
  {
  }

  /** Three keys in order, the outer two with one lock id and the middle one with another: publishes of
      the first two and of the last two each hold what the other needs next. */
  lemma CollisionDeadlocks(cfg: Config, r0: RoleId, r1: RoleId, a: Key, b: Key, c: Key)
    requires r0 != r1 && cfg.lockId(a) == cfg.lockId(c) != cfg.lockId(b)
    ensures var end := Run(cfg, State(map[], map[], map[]), Collision(cfg, r0, r1, a, b, c));
      end.Some? && Deadlocked(cfg, end.value)
  {
    var first := [Begin(0, PublishOfTwo(cfg, r0, a, b)), Begin(1, PublishOfTwo(cfg, r1, b, c))];
    CollisionBegins(cfg, r0, r1, a, b, c);
    CollisionLocks(cfg, r0, r1, a, b, c);
    RunConcat(cfg, State(map[], map[], map[]), first, [Go(0), Go(0), Go(1), Go(1)]);
    CollidedIsDeadlocked(cfg, r0, r1, a, b, c);
  }

  /** No run over these keys ever deadlocks. */
  ghost predicate DeadlockFree(cfg: Config, keys: set<Key>) {
    forall s: State, steps: seq<Step> | s.txs == map[] && StepsOk(cfg, steps) && StepsOver(keys, steps) && Run(cfg, s, steps).Some? ::
      !Deadlocked(cfg, Run(cfg, s, steps).value)
  }

  lemma CollisionBreaksFreedom(cfg: Config, keys: set<Key>, a: Key, b: Key, c: Key)
    requires Orders(cfg.collationRank, keys) && a in keys && b in keys && c in keys
    requires cfg.sortRank(a) < cfg.sortRank(b) < cfg.sortRank(c) && cfg.lockId(a) == cfg.lockId(c) != cfg.lockId(b)
    ensures !DeadlockFree(cfg, keys)
  {
    var s, steps := State(map[], map[], map[]), Collision(cfg, "r0", "r1", a, b, c);
    assert a != b && b != c;
    CollisionIsWellFormed(cfg, "r0", "r1", a, b, c);
    CollisionIsOver(cfg, keys, "r0", "r1", a, b, c);
    CollisionDeadlocks(cfg, "r0", "r1", a, b, c);
    assert s.txs == map[] && StepsOver(keys, steps) && StepsOk(cfg, steps);
  }

  /** No run over a set of keys deadlocks exactly when the keys of every lock id are contiguous in the
      order in which the locks are taken. */
  lemma DeadlockFreeIffContiguous(cfg: Config, keys: set<Key>)
    requires Orders(cfg.sortRank, keys) && Orders(cfg.collationRank, keys)
    ensures DeadlockFree(cfg, keys) <==> Contiguous(cfg, keys)
  {
    if Contiguous(cfg, keys) {
      forall s: State, steps: seq<Step> | s.txs == map[] && StepsOk(cfg, steps) && StepsOver(keys, steps) && Run(cfg, s, steps).Some?
        ensures !Deadlocked(cfg, Run(cfg, s, steps).value)
      {
        NeverDeadlocked(cfg, keys, s, steps);
      }
    } else {
      var a, b, c :| a in keys && b in keys && c in keys && cfg.sortRank(a) < cfg.sortRank(b) < cfg.sortRank(c)
        && cfg.lockId(a) == cfg.lockId(c) != cfg.lockId(b);
      CollisionBreaksFreedom(cfg, keys, a, b, c);
    }
  }
}
