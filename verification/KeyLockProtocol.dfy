/**
 * The protocol that keeps self-editable attributes out of published formulas.
 *
 * Three kinds of transaction run under READ COMMITTED: a publish, which makes a formula live; a
 * create, which inserts an attribute definition; and an update, which patches one. A step of a
 * transaction is one statement, and it sees only what other transactions have committed. Locks
 * are not stored: what a transaction holds follows from how far it has got.
 */
module KeyLockProtocol {
  import opened Common

  type Key = string
  type RoleId = string
  type TxId = nat

  datatype Scope = UserScope | GroupScope

  /** `(key, applies_to)`, the unique name of a definition row. */
  datatype Slot = Slot(key: Key, scope: Scope)

  /** `keys` is the draft's attribute keys in the order of the JavaScript sort; `byCollation` holds
      the same keys in the order of the database's ORDER BY. */
  datatype Request =
    | Publish(role: RoleId, keys: seq<Key>, byCollation: seq<Key>)
    | Create(slot: Slot, selfEditable: bool)
    | Update(slot: Slot, patch: Option<bool>)

  datatype Phase =
    | Start
    | Locking(taken: nat)                             // publish: role row held, `taken` advisory locks held
    | Scanning(rows: seq<Key>, locked: nat, clean: bool) // publish: definition rows being locked in turn
    | Written(rows: seq<Key>)                         // publish: gate passed, child rows replaced
    | KeyLocked                                       // create: advisory lock held
    | Checked                                         // create: about to insert
    | Inserted                                        // create: row inserted, not committed
    | RowLocked                                       // update: definition row held
    | Patched                                         // update: row written, not committed
    | Committed
    | Aborted

  datatype Tx = Tx(req: Request, phase: Phase)

  /** `defs` and `live` are the committed definition rows and the committed formulas. */
  datatype State = State(defs: map<Slot, bool>, live: map<RoleId, set<Key>>, txs: map<TxId, Tx>)

  /** `lockId` is the advisory lock of a key; `alwaysLock` is false in the code as written. */
  datatype Config = Config(
    lockId: Key -> int, sortRank: Key -> int, collationRank: Key -> int, alwaysLock: bool)

  // ---------------------------------------------------------------- locks

  predicate TakesKeyLock(cfg: Config, req: Request) {
    req.Create? && (cfg.alwaysLock || req.selfEditable)
  }

  predicate Finished(tx: Tx) {
    tx.phase.Committed? || tx.phase.Aborted?
  }

  predicate HoldsRole(tx: Tx, role: RoleId) {
    tx.req.Publish? && tx.req.role == role &&
    (tx.phase.Locking? || tx.phase.Scanning? || tx.phase.Written?)
  }

  /** The keys whose advisory lock a transaction holds. */
  function KeysTaken(cfg: Config, tx: Tx): (taken: seq<Key>)
    ensures tx.req.Create? && taken != [] ==> taken == [tx.req.slot.key]
    ensures tx.req.Publish? ==> taken <= tx.req.keys
  {
    match tx.req
    case Publish(_, keys, _) =>
      if tx.phase.Locking? then keys[..if tx.phase.taken <= |keys| then tx.phase.taken else |keys|]
      else if tx.phase.Scanning? || tx.phase.Written? then keys
      else []
    case Create(slot, _) =>
      if TakesKeyLock(cfg, tx.req) && (tx.phase.KeyLocked? || tx.phase.Checked? || tx.phase.Inserted?)
      then [slot.key] else []
    case Update(_, _) => []
  }

  predicate HoldsKeyLock(cfg: Config, tx: Tx, id: int) {
    exists k | k in KeysTaken(cfg, tx) :: cfg.lockId(k) == id
  }

  /** The definition rows a transaction has locked. */
  function RowsTaken(tx: Tx): seq<Key> {
    match tx.req
    case Publish(_, _, _) =>
      if tx.phase.Scanning? then tx.phase.rows[..if tx.phase.locked <= |tx.phase.rows| then tx.phase.locked else |tx.phase.rows|]
      else if tx.phase.Written? then tx.phase.rows
      else []
    case Create(_, _) => []
    case Update(slot, _) => if tx.phase.RowLocked? || tx.phase.Patched? then [slot.key] else []
  }

  predicate HoldsRow(tx: Tx, slot: Slot) {
    slot.key in RowsTaken(tx) && slot.scope == (if tx.req.Update? then tx.req.slot.scope else UserScope)
  }

  /** An uncommitted insert makes every other insert of the same unique name wait. */
  predicate HoldsInsert(tx: Tx, slot: Slot) {
    tx.req.Create? && tx.req.slot == slot && tx.phase.Inserted?
  }

  predicate RoleFree(s: State, me: TxId, role: RoleId) {
    forall t | t in s.txs && t != me :: !HoldsRole(s.txs[t], role)
  }

  predicate KeyLockFree(cfg: Config, s: State, me: TxId, id: int) {
    forall t | t in s.txs && t != me :: !HoldsKeyLock(cfg, s.txs[t], id)
  }

  predicate RowFree(s: State, me: TxId, slot: Slot) {
    forall t | t in s.txs && t != me :: !HoldsRow(s.txs[t], slot)
  }

  predicate InsertFree(s: State, me: TxId, slot: Slot) {
    forall t | t in s.txs && t != me :: !HoldsInsert(s.txs[t], slot)
  }

  // ---------------------------------------------------------------- steps

  /** Some committed condition reads this user attribute. */
  predicate Named(live: map<RoleId, set<Key>>, slot: Slot) {
    slot.scope.UserScope? && exists r | r in live :: slot.key in live[r]
  }

  function RowsSeen(s: State, keys: seq<Key>): (rows: seq<Key>)
    ensures forall k :: k in rows <==> k in keys && Slot(k, UserScope) in s.defs
  {
    if keys == [] then []
    else (if Slot(keys[0], UserScope) in s.defs then [keys[0]] else []) + RowsSeen(s, keys[1..])
  }

  function At(s: State, t: TxId, phase: Phase): State
    requires t in s.txs
  {
    s.(txs := s.txs[t := s.txs[t].(phase := phase)])
  }

  /** The next statement of transaction `t`, or None while it has to wait for a lock. */
  function Advance(cfg: Config, s: State, t: TxId): Option<State>
    requires t in s.txs && !Finished(s.txs[t])
  {
    var tx := s.txs[t];
    match tx.req
    case Publish(role, keys, byCollation) => AdvancePublish(cfg, s, t)
    case Create(slot, selfEditable) => AdvanceCreate(cfg, s, t)
    case Update(slot, patch) => AdvanceUpdate(s, t)
  }

  function AdvancePublish(cfg: Config, s: State, t: TxId): Option<State>
    requires t in s.txs && s.txs[t].req.Publish?
  {
    var Publish(role, keys, byCollation) := s.txs[t].req;
    match s.txs[t].phase
    case Start =>
      if RoleFree(s, t, role) then Some(At(s, t, Locking(0))) else None
    case Locking(n) =>
      if n < |keys| then
        if KeyLockFree(cfg, s, t, cfg.lockId(keys[n])) then Some(At(s, t, Locking(n + 1))) else None
      else if keys == [] then Some(At(s, t, Written([])))
      else Some(At(s, t, Scanning(RowsSeen(s, byCollation), 0, true)))
    case Scanning(rows, n, clean) =>
      if n < |rows| then
        var slot := Slot(rows[n], UserScope);
        if RowFree(s, t, slot) then
          Some(At(s, t, Scanning(rows, n + 1, clean && !(slot in s.defs && s.defs[slot]))))
        else None
      else Some(At(s, t, if clean then Written(rows) else Aborted))
    case Written(rows) =>
      Some(At(s, t, Committed).(live := s.live[role := set k | k in keys]))
    case _ => None
  }

  function AdvanceCreate(cfg: Config, s: State, t: TxId): Option<State>
    requires t in s.txs && s.txs[t].req.Create?
  {
    var Create(slot, selfEditable) := s.txs[t].req;
    match s.txs[t].phase
    case Start =>
      if !TakesKeyLock(cfg, s.txs[t].req) then Some(At(s, t, Checked))
      else if KeyLockFree(cfg, s, t, cfg.lockId(slot.key)) then Some(At(s, t, KeyLocked))
      else None
    case KeyLocked =>
      Some(At(s, t, if selfEditable && Named(s.live, slot) then Aborted else Checked))
    case Checked =>
      if slot in s.defs then Some(At(s, t, Aborted))
      else if InsertFree(s, t, slot) then Some(At(s, t, Inserted))
      else None
    case Inserted =>
      Some(At(s, t, Committed).(defs := s.defs[slot := selfEditable]))
    case _ => None
  }

  function AdvanceUpdate(s: State, t: TxId): Option<State>
    requires t in s.txs && s.txs[t].req.Update?
  {
    var Update(slot, patch) := s.txs[t].req;
    match s.txs[t].phase
    case Start =>
      if slot !in s.defs then Some(At(s, t, Aborted))
      else if RowFree(s, t, slot) then Some(At(s, t, RowLocked))
      else None
    case RowLocked =>
      Some(At(s, t, if patch == Some(true) && Named(s.live, slot) then Aborted else Patched))
    case Patched =>
      Some(At(s, t, Committed).(defs := if patch.Some? then s.defs[slot := patch.value] else s.defs))
    case _ => None
  }

  /** A transaction begins, takes its next step, or is rolled back (any refusal, any lost connection). */
  datatype Step = Begin(t: TxId, req: Request) | Go(t: TxId) | Rollback(t: TxId)

  function Apply(cfg: Config, s: State, step: Step): Option<State> {
    match step
    case Begin(t, req) => if t in s.txs then None else Some(s.(txs := s.txs[t := Tx(req, Start)]))
    case Go(t) => if t in s.txs && !Finished(s.txs[t]) then Advance(cfg, s, t) else None
    case Rollback(t) => if t in s.txs && !Finished(s.txs[t]) then Some(At(s, t, Aborted)) else None
  }

  /** Runs an interleaving; None when some step of it was not possible. */
  function Run(cfg: Config, s: State, steps: seq<Step>): Option<State>
    decreases |steps|
  {
    if steps == [] then Some(s)
    else match Apply(cfg, s, steps[0])
      case None => None
      case Some(next) => Run(cfg, next, steps[1..])
  }

  // ---------------------------------------------------------------- safety

  /** No committed formula reads an attribute that is committed as self-editable. */
  ghost predicate Safe(s: State) {
    forall r, k | r in s.live && k in s.live[r] && Slot(k, UserScope) in s.defs ::
      !s.defs[Slot(k, UserScope)]
  }

  ghost predicate Quiescent(s: State) {
    s.txs == map[] && Safe(s)
  }

  /** The keys of a publish are its draft's keys, once each, sorted both ways. */
  ghost predicate WellFormed(cfg: Config, req: Request) {
    req.Publish? ==>
      && (forall i, j | 0 <= i < j < |req.keys| :: cfg.sortRank(req.keys[i]) < cfg.sortRank(req.keys[j]))
      && (forall i, j | 0 <= i < j < |req.byCollation| ::
            cfg.collationRank(req.byCollation[i]) < cfg.collationRank(req.byCollation[j]))
      && (forall k :: k in req.keys <==> k in req.byCollation)
  }

  /** Every user-scoped create takes the advisory lock of its key. */
  ghost predicate CreatesLock(cfg: Config, req: Request) {
    req.Create? && req.slot.scope.UserScope? ==> TakesKeyLock(cfg, req)
  }

  ghost predicate StepsOk(cfg: Config, steps: seq<Step>) {
    forall i | 0 <= i < |steps| && steps[i].Begin? :: WellFormed(cfg, steps[i].req)
  }

  ghost predicate StepsLock(cfg: Config, steps: seq<Step>) {
    forall i | 0 <= i < |steps| && steps[i].Begin? :: CreatesLock(cfg, steps[i].req)
  }

  /** What one transaction may rely on about the committed state at its present phase. */
  ghost predicate TxOk(defs: map<Slot, bool>, live: map<RoleId, set<Key>>, tx: Tx) {
    match tx.req
    case Publish(_, keys, byCollation) =>
      (match tx.phase
       case Scanning(rows, n, clean) =>
         n <= |rows| && RowsOk(defs, keys, rows) && (clean ==> AllFalse(defs, rows[..n]))
       case Written(rows) => RowsOk(defs, keys, rows) && AllFalse(defs, rows)
       case _ => true)
    case Create(slot, selfEditable) =>
      selfEditable && (tx.phase.Checked? || tx.phase.Inserted?) ==> !Named(live, slot)
    case Update(slot, patch) =>
      && (tx.phase.RowLocked? || tx.phase.Patched? ==> slot in defs)
      && (patch == Some(true) && tx.phase.Patched? ==> !Named(live, slot))
  }

  /** The scan has seen exactly the rows that are committed for the draft's keys. */
  ghost predicate RowsOk(defs: map<Slot, bool>, keys: seq<Key>, rows: seq<Key>) {
    forall k :: k in rows <==> k in keys && Slot(k, UserScope) in defs
  }

  ghost predicate AllFalse(defs: map<Slot, bool>, rows: seq<Key>) {
    forall k | k in rows && Slot(k, UserScope) in defs :: !defs[Slot(k, UserScope)]
  }

  /** Two transactions never hold the same lock. */
  ghost predicate Apart(cfg: Config, tx: Tx, other: Tx) {
    && (forall id :: !(HoldsKeyLock(cfg, tx, id) && HoldsKeyLock(cfg, other, id)))
    && (forall slot :: !(HoldsRow(tx, slot) && HoldsRow(other, slot)))
  }

  ghost predicate Exclusive(cfg: Config, s: State) {
    forall t, u {:trigger Apart(cfg, s.txs[t], s.txs[u])} |
      t in s.txs && u in s.txs && t != u :: Apart(cfg, s.txs[t], s.txs[u])
  }

  ghost predicate Inv(cfg: Config, s: State) {
    && Safe(s)
    && Exclusive(cfg, s)
    && (forall t | t in s.txs ::
          WellFormed(cfg, s.txs[t].req) && CreatesLock(cfg, s.txs[t].req) && TxOk(s.defs, s.live, s.txs[t]))
  }

  /** Every lock `t` holds after a step it held before, or was held by nobody else. */
  ghost predicate TakesFreeLocks(cfg: Config, s: State, t: TxId, after: Tx)
    requires t in s.txs
  {
    && (forall id | HoldsKeyLock(cfg, after, id) :: HoldsKeyLock(cfg, s.txs[t], id) || KeyLockFree(cfg, s, t, id))
    && (forall slot | HoldsRow(after, slot) :: HoldsRow(s.txs[t], slot) || RowFree(s, t, slot))
  }

  lemma FreeLocksKeepExclusive(cfg: Config, s: State, s': State, t: TxId)
    requires Exclusive(cfg, s) && t in s.txs && t in s'.txs
    requires s'.txs == s.txs[t := s'.txs[t]]
    requires TakesFreeLocks(cfg, s, t, s'.txs[t])
    ensures Exclusive(cfg, s')
  {
    forall u, v | u in s'.txs && v in s'.txs && u != v ensures Apart(cfg, s'.txs[u], s'.txs[v]) {
      assert Apart(cfg, s.txs[u], s.txs[v]);
    }
  }

  lemma PublishTakesFreeKeyLock(cfg: Config, s: State, t: TxId, k: Key)
    requires t in s.txs && s.txs[t].req.Publish? && AdvancePublish(cfg, s, t).Some?
    requires k in KeysTaken(cfg, AdvancePublish(cfg, s, t).value.txs[t]) && k !in KeysTaken(cfg, s.txs[t])
    ensures KeyLockFree(cfg, s, t, cfg.lockId(k))
  {
    var tx := s.txs[t];
    assert tx.phase.Locking? && k == tx.req.keys[tx.phase.taken];
  }

  lemma PublishTakesFreeRow(cfg: Config, s: State, t: TxId, slot: Slot)
    requires t in s.txs && s.txs[t].req.Publish? && AdvancePublish(cfg, s, t).Some?
    requires HoldsRow(AdvancePublish(cfg, s, t).value.txs[t], slot) && !HoldsRow(s.txs[t], slot)
    ensures RowFree(s, t, slot)
  {
    var tx := s.txs[t];
    if tx.phase.Scanning? && tx.phase.locked < |tx.phase.rows| {
      assert slot.key == tx.phase.rows[tx.phase.locked];
    }
  }

  lemma PublishTakesFreeLocks(cfg: Config, s: State, t: TxId)
    requires t in s.txs && s.txs[t].req.Publish? && AdvancePublish(cfg, s, t).Some?
    ensures TakesFreeLocks(cfg, s, t, AdvancePublish(cfg, s, t).value.txs[t])
  {
    var tx, tx' := s.txs[t], AdvancePublish(cfg, s, t).value.txs[t];
    forall id | HoldsKeyLock(cfg, tx', id) && !HoldsKeyLock(cfg, tx, id) ensures KeyLockFree(cfg, s, t, id) {
      var k :| k in KeysTaken(cfg, tx') && cfg.lockId(k) == id;
      PublishTakesFreeKeyLock(cfg, s, t, k);
    }
    forall slot | HoldsRow(tx', slot) && !HoldsRow(tx, slot) ensures RowFree(s, t, slot) {
      PublishTakesFreeRow(cfg, s, t, slot);
    }
  }

  lemma CreateTakesFreeLocks(cfg: Config, s: State, t: TxId)
    requires t in s.txs && s.txs[t].req.Create? && AdvanceCreate(cfg, s, t).Some?
    ensures TakesFreeLocks(cfg, s, t, AdvanceCreate(cfg, s, t).value.txs[t])
  {
  }

  lemma UpdateTakesFreeLocks(cfg: Config, s: State, t: TxId)
    requires t in s.txs && s.txs[t].req.Update? && AdvanceUpdate(s, t).Some?
    ensures TakesFreeLocks(cfg, s, t, AdvanceUpdate(s, t).value.txs[t])
  {
  }

  lemma PublishKeepsTxOk(cfg: Config, s: State, t: TxId)
    requires Inv(cfg, s) && t in s.txs && s.txs[t].req.Publish? && AdvancePublish(cfg, s, t).Some?
    ensures var s' := AdvancePublish(cfg, s, t).value; TxOk(s'.defs, s'.live, s'.txs[t])
  {
    var tx := s.txs[t];
    if tx.phase.Scanning? {
      var rows, n := tx.phase.rows, tx.phase.locked;
      if n < |rows| {
        assert rows[..n + 1] == rows[..n] + [rows[n]];
      } else {
        assert rows[..n] == rows;
      }
    }
  }

  /** A publish that commits names only keys it has locked, so no other transaction's check goes stale. */
  lemma PublishCommitKeepsOthers(cfg: Config, s: State, t: TxId, u: TxId)
    requires Inv(cfg, s) && t in s.txs && u in s.txs && t != u
    requires s.txs[t].req.Publish? && s.txs[t].phase.Written?
    ensures TxOk(s.defs, AdvancePublish(cfg, s, t).value.live, s.txs[u])
  {
    var other := s.txs[u];
    assert Apart(cfg, s.txs[t], other);
    if other.req.Create? && other.req.slot.key in s.txs[t].req.keys && other.req.selfEditable
       && other.req.slot.scope.UserScope? && (other.phase.Checked? || other.phase.Inserted?) {
      assert HoldsKeyLock(cfg, other, cfg.lockId(other.req.slot.key));
      assert HoldsKeyLock(cfg, s.txs[t], cfg.lockId(other.req.slot.key));
      assert false;
    }
    if other.req.Update? && other.req.slot.key in s.txs[t].req.keys
       && other.req.slot.scope.UserScope? && other.phase.Patched? {
      assert HoldsRow(other, other.req.slot) && HoldsRow(s.txs[t], other.req.slot);
      assert false;
    }
  }

  lemma PublishKeepsInv(cfg: Config, s: State, t: TxId)
    requires Inv(cfg, s) && t in s.txs && s.txs[t].req.Publish? && AdvancePublish(cfg, s, t).Some?
    ensures Inv(cfg, AdvancePublish(cfg, s, t).value)
  {
    var s' := AdvancePublish(cfg, s, t).value;
    PublishTakesFreeLocks(cfg, s, t);
    FreeLocksKeepExclusive(cfg, s, s', t);
    PublishKeepsTxOk(cfg, s, t);
    forall u | u in s'.txs && u != t ensures TxOk(s'.defs, s'.live, s'.txs[u]) {
      if s.txs[t].phase.Written? {
        PublishCommitKeepsOthers(cfg, s, t, u);
      }
    }
    assert Safe(s') by {
      if s.txs[t].phase.Written? {
        assert TxOk(s.defs, s.live, s.txs[t]);
      }
    }
  }

  /** A create that commits holds its key's lock, so no publish that has scanned that key is still open. */
  lemma CreateCommitKeepsOthers(cfg: Config, s: State, t: TxId, u: TxId)
    requires Inv(cfg, s) && t in s.txs && u in s.txs && t != u
    requires s.txs[t].req.Create? && s.txs[t].phase.Inserted?
    ensures TxOk(AdvanceCreate(cfg, s, t).value.defs, s.live, s.txs[u])
  {
    var tx, other := s.txs[t], s.txs[u];
    assert Apart(cfg, tx, other);
    if other.req.Publish? && (other.phase.Scanning? || other.phase.Written?)
       && tx.req.slot.scope.UserScope? && tx.req.slot.key in other.req.keys {
      assert HoldsKeyLock(cfg, tx, cfg.lockId(tx.req.slot.key));
      assert HoldsKeyLock(cfg, other, cfg.lockId(tx.req.slot.key));
      assert false;
    }
  }

  lemma CreateKeepsInv(cfg: Config, s: State, t: TxId)
    requires Inv(cfg, s) && t in s.txs && s.txs[t].req.Create? && AdvanceCreate(cfg, s, t).Some?
    ensures Inv(cfg, AdvanceCreate(cfg, s, t).value)
  {
    var s' := AdvanceCreate(cfg, s, t).value;
    CreateTakesFreeLocks(cfg, s, t);
    FreeLocksKeepExclusive(cfg, s, s', t);
    forall u | u in s'.txs && u != t ensures TxOk(s'.defs, s'.live, s'.txs[u]) {
      if s.txs[t].phase.Inserted? {
        CreateCommitKeepsOthers(cfg, s, t, u);
      }
    }
    assert TxOk(s.defs, s.live, s.txs[t]);
  }

  /** An update that commits holds the row, so no publish has already read it. */
  lemma UpdateCommitKeepsOthers(cfg: Config, s: State, t: TxId, u: TxId)
    requires Inv(cfg, s) && t in s.txs && u in s.txs && t != u
    requires s.txs[t].req.Update? && s.txs[t].phase.Patched?
    ensures TxOk(AdvanceUpdate(s, t).value.defs, s.live, s.txs[u])
  {
    var tx, other := s.txs[t], s.txs[u];
    assert Apart(cfg, tx, other);
    assert TxOk(s.defs, s.live, tx);
    assert HoldsRow(tx, tx.req.slot) && !HoldsRow(other, tx.req.slot);
  }

  lemma UpdateKeepsInv(cfg: Config, s: State, t: TxId)
    requires Inv(cfg, s) && t in s.txs && s.txs[t].req.Update? && AdvanceUpdate(s, t).Some?
    ensures Inv(cfg, AdvanceUpdate(s, t).value)
  {
    var s' := AdvanceUpdate(s, t).value;
    UpdateTakesFreeLocks(cfg, s, t);
    FreeLocksKeepExclusive(cfg, s, s', t);
    forall u | u in s'.txs && u != t ensures TxOk(s'.defs, s'.live, s'.txs[u]) {
      if s.txs[t].phase.Patched? {
        UpdateCommitKeepsOthers(cfg, s, t, u);
      }
    }
    assert TxOk(s.defs, s.live, s.txs[t]);
  }

  lemma BeginKeepsExclusive(cfg: Config, s: State, t: TxId, req: Request)
    requires Exclusive(cfg, s) && t !in s.txs
    ensures Exclusive(cfg, s.(txs := s.txs[t := Tx(req, Start)]))
  {
    var s' := s.(txs := s.txs[t := Tx(req, Start)]);
    assert KeysTaken(cfg, Tx(req, Start)) == [] && RowsTaken(Tx(req, Start)) == [];
    forall u, v | u in s'.txs && v in s'.txs && u != v ensures Apart(cfg, s'.txs[u], s'.txs[v]) {
      if u != t && v != t {
        assert Apart(cfg, s.txs[u], s.txs[v]);
      }
    }
  }

  lemma BeginKeepsInv(cfg: Config, s: State, t: TxId, req: Request)
    requires Inv(cfg, s) && t !in s.txs && WellFormed(cfg, req) && CreatesLock(cfg, req)
    ensures Inv(cfg, s.(txs := s.txs[t := Tx(req, Start)]))
  {
    BeginKeepsExclusive(cfg, s, t, req);
  }

  lemma RollbackKeepsInv(cfg: Config, s: State, t: TxId)
    requires Inv(cfg, s) && t in s.txs
    ensures Inv(cfg, At(s, t, Aborted))
  {
    var s' := At(s, t, Aborted);
    assert KeysTaken(cfg, s'.txs[t]) == [] && RowsTaken(s'.txs[t]) == [];
    FreeLocksKeepExclusive(cfg, s, s', t);
  }

  lemma StepKeepsInv(cfg: Config, s: State, step: Step)
    requires Inv(cfg, s) && Apply(cfg, s, step).Some?
    requires step.Begin? ==> WellFormed(cfg, step.req) && CreatesLock(cfg, step.req)
    ensures Inv(cfg, Apply(cfg, s, step).value)
  {
    match step
    case Begin(t, req) => BeginKeepsInv(cfg, s, t, req);
    case Rollback(t) => RollbackKeepsInv(cfg, s, t);
    case Go(t) =>
      match s.txs[t].req
      case Publish(_, _, _) => PublishKeepsInv(cfg, s, t);
      case Create(_, _) => CreateKeepsInv(cfg, s, t);
      case Update(_, _) => UpdateKeepsInv(cfg, s, t);
  }

  lemma {:induction false} RunKeepsInv(cfg: Config, s: State, steps: seq<Step>)
    requires Inv(cfg, s) && StepsOk(cfg, steps) && StepsLock(cfg, steps) && Run(cfg, s, steps).Some?
    ensures Inv(cfg, Run(cfg, s, steps).value)
    decreases |steps|
  {
    if steps != [] {
      StepKeepsInv(cfg, s, steps[0]);
      RunKeepsInv(cfg, Apply(cfg, s, steps[0]).value, steps[1..]);
    }
  }

  /** Over every interleaving of any number of publishes, updates and locking creates, no committed
      formula ever reads an attribute that is committed as self-editable. */
  lemma LockingCreatesAreSafe(cfg: Config, s: State, steps: seq<Step>)
    requires Quiescent(s) && StepsOk(cfg, steps) && StepsLock(cfg, steps) && Run(cfg, s, steps).Some?
    ensures Safe(Run(cfg, s, steps).value)
  {
    RunKeepsInv(cfg, s, steps);
  }

  // ---------------------------------------------------------------- the race the code leaves open

  /** A publish scans while the key has no row; a create with the flag off and an update that turns it
      on both commit; then the publish commits. */
  function Race(role: RoleId, key: Key): seq<Step> {
    ScanSteps(role, key) + CreateSteps(key) + UpdateSteps(key) + [Go(0), Go(0)]
  }

  function ScanSteps(role: RoleId, key: Key): seq<Step> {
    [Begin(0, Publish(role, [key], [key])), Go(0), Go(0), Go(0)]
  }

  function CreateSteps(key: Key): seq<Step> {
    [Begin(1, Create(Slot(key, UserScope), false)), Go(1), Go(1), Go(1)]
  }

  function UpdateSteps(key: Key): seq<Step> {
    [Begin(2, Update(Slot(key, UserScope), Some(true))), Go(2), Go(2), Go(2)]
  }

  /** The state once the publish has scanned and found no row. */
  function AfterScan(role: RoleId, key: Key): State {
    State(map[], map[], map[0 := Tx(Publish(role, [key], [key]), Scanning([], 0, true))])
  }

  function AfterCreate(role: RoleId, key: Key): State {
    var slot, s := Slot(key, UserScope), AfterScan(role, key);
    s.(defs := map[slot := false], txs := s.txs[1 := Tx(Create(slot, false), Committed)])
  }

  /** The state once the create and the update have committed too. */
  function AfterFlip(role: RoleId, key: Key): State {
    var slot, s := Slot(key, UserScope), AfterCreate(role, key);
    s.(defs := map[slot := true], txs := s.txs[2 := Tx(Update(slot, Some(true)), Committed)])
  }

  lemma {:induction false} RunConcat(cfg: Config, s: State, first: seq<Step>, rest: seq<Step>)
    requires Run(cfg, s, first).Some?
    ensures Run(cfg, s, first + rest) == Run(cfg, Run(cfg, s, first).value, rest)
    decreases |first|
  {
    if first == [] {
      assert first + rest == rest;
    } else {
      assert (first + rest)[1..] == first[1..] + rest;
      RunConcat(cfg, Apply(cfg, s, first[0]).value, first[1..], rest);
    }
  }

  lemma RunFour(cfg: Config, s0: State, s1: State, s2: State, s3: State, s4: State, steps: seq<Step>)
    requires |steps| == 4
    requires Apply(cfg, s0, steps[0]) == Some(s1) && Apply(cfg, s1, steps[1]) == Some(s2)
    requires Apply(cfg, s2, steps[2]) == Some(s3) && Apply(cfg, s3, steps[3]) == Some(s4)
    ensures Run(cfg, s0, steps) == Some(s4)
  {
    assert steps[1..][0] == steps[1] && steps[2..][0] == steps[2] && steps[3..][0] == steps[3];
    assert steps[1..][1..] == steps[2..] && steps[2..][1..] == steps[3..] && steps[3..][1..] == [];
    assert Run(cfg, s3, steps[3..]) == Some(s4);
    assert Run(cfg, s2, steps[2..]) == Some(s4);
  }

  lemma RaceScans(cfg: Config, role: RoleId, key: Key)
    ensures Run(cfg, State(map[], map[], map[]), ScanSteps(role, key)) == Some(AfterScan(role, key))
  {
    var s0 := State(map[], map[], map[]);
    var s1 := s0.(txs := s0.txs[0 := Tx(Publish(role, [key], [key]), Start)]);
    var s2 := At(s1, 0, Locking(0));
    var s3 := At(s2, 0, Locking(1));
    assert RowsSeen(s3, [key]) == [];
    var s4 := At(s3, 0, Scanning([], 0, true));
    assert s4 == AfterScan(role, key);
    RunFour(cfg, s0, s1, s2, s3, s4, ScanSteps(role, key));
  }

  lemma RaceCreates(cfg: Config, role: RoleId, key: Key)
    requires !cfg.alwaysLock
    ensures Run(cfg, AfterScan(role, key), CreateSteps(key)) == Some(AfterCreate(role, key))
  {
    var slot, s4 := Slot(key, UserScope), AfterScan(role, key);
    var s5 := s4.(txs := s4.txs[1 := Tx(Create(slot, false), Start)]);
    var s6 := At(s5, 1, Checked);
    var s7 := At(s6, 1, Inserted);
    var s8 := At(s7, 1, Committed).(defs := s7.defs[slot := false]);
    assert Apply(cfg, s6, Go(1)) == Some(s7);
    assert Apply(cfg, s7, Go(1)) == Some(s8);
    assert s8 == AfterCreate(role, key);
    RunFour(cfg, s4, s5, s6, s7, s8, CreateSteps(key));
  }

  lemma RaceUpdates(cfg: Config, role: RoleId, key: Key)
    ensures Run(cfg, AfterCreate(role, key), UpdateSteps(key)) == Some(AfterFlip(role, key))
  {
    var slot, s8 := Slot(key, UserScope), AfterCreate(role, key);
    var s9 := s8.(txs := s8.txs[2 := Tx(Update(slot, Some(true)), Start)]);
    var s10 := At(s9, 2, RowLocked);
    var s11 := At(s10, 2, Patched);
    var s12 := At(s11, 2, Committed).(defs := s11.defs[slot := true]);
    assert Apply(cfg, s9, Go(2)) == Some(s10);
    assert s12 == AfterFlip(role, key);
    RunFour(cfg, s8, s9, s10, s11, s12, UpdateSteps(key));
  }

  /** The publish, whose scan found no row to lock, commits the formula. */
  lemma RaceCommits(cfg: Config, role: RoleId, key: Key)
    ensures Run(cfg, AfterFlip(role, key), [Go(0), Go(0)]).Some?
    ensures !Safe(Run(cfg, AfterFlip(role, key), [Go(0), Go(0)]).value)
  {
    var s := AfterFlip(role, key);
    var gated := At(s, 0, Written([]));
    assert Apply(cfg, s, Go(0)) == Some(gated);
    assert [Go(0), Go(0)][1..] == [Go(0)];
    var end := At(gated, 0, Committed).(live := gated.live[role := set k | k in [key]]);
    assert Run(cfg, gated, [Go(0)]) == Some(end);
    assert role in end.live && key in end.live[role] && end.defs[Slot(key, UserScope)];
  }

  lemma RaceRuns(cfg: Config, role: RoleId, key: Key)
    requires !cfg.alwaysLock
    ensures Run(cfg, State(map[], map[], map[]), Race(role, key)) == Run(cfg, AfterFlip(role, key), [Go(0), Go(0)])
  {
    var s := State(map[], map[], map[]);
    RaceScans(cfg, role, key);
    RaceCreates(cfg, role, key);
    RaceUpdates(cfg, role, key);
    RunConcat(cfg, s, ScanSteps(role, key), CreateSteps(key));
    RunConcat(cfg, s, ScanSteps(role, key) + CreateSteps(key), UpdateSteps(key));
    RunConcat(cfg, s, ScanSteps(role, key) + CreateSteps(key) + UpdateSteps(key), [Go(0), Go(0)]);
  }

  /** As written, the invariant breaks for every role and every key that has no definition yet. */
  lemma UnlockedCreateBreaksSafety(cfg: Config, role: RoleId, key: Key)
    requires !cfg.alwaysLock
    ensures Quiescent(State(map[], map[], map[])) && StepsOk(cfg, Race(role, key))
    ensures Run(cfg, State(map[], map[], map[]), Race(role, key)).Some?
    ensures !Safe(Run(cfg, State(map[], map[], map[]), Race(role, key)).value)
  {
    RaceRuns(cfg, role, key);
    RaceCommits(cfg, role, key);
  }

  /** The documented invariant holds of every interleaving exactly when create always takes the lock. */
  lemma SafeIffCreateAlwaysLocks(cfg: Config)
    ensures cfg.alwaysLock <==>
      forall s, steps | Quiescent(s) && StepsOk(cfg, steps) && Run(cfg, s, steps).Some? ::
        Safe(Run(cfg, s, steps).value)
  {
    if cfg.alwaysLock {
      forall s, steps | Quiescent(s) && StepsOk(cfg, steps) && Run(cfg, s, steps).Some?
        ensures Safe(Run(cfg, s, steps).value)
      {
        LockingCreatesAreSafe(cfg, s, steps);
      }
    } else {
      UnlockedCreateBreaksSafety(cfg, "role", "key");
    }
  }
}
