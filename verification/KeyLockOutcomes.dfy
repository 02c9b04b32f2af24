/**
 * What a transaction of `KeyLockProtocol` comes to when nobody gets in its way: exactly when a publish, a
 * create and an update commit, and what is committed then.
 */
module KeyLockOutcomes {
  import opened Common
  import opened KeyLockProtocol

  /** `n` statements of one transaction in a row. */
  function Gos(t: TxId, n: nat): seq<Step> {
    if n == 0 then [] else [Go(t)] + Gos(t, n - 1)
  }

  /** Steps that take the state from one to another. */
  ghost predicate Reaches(cfg: Config, s: State, steps: seq<Step>, end: State) {
    Run(cfg, s, steps) == Some(end)
  }

  lemma NoGos(cfg: Config, s: State, t: TxId)
    ensures Reaches(cfg, s, Gos(t, 0), s)
  {
  }

  lemma OneGo(cfg: Config, s: State, t: TxId, next: State, n: nat, end: State)
    requires Apply(cfg, s, Go(t)) == Some(next) && Reaches(cfg, next, Gos(t, n), end)
    ensures Reaches(cfg, s, Gos(t, n + 1), end)
  {
    var steps := Gos(t, n + 1);
    assert steps[0] == Go(t) && steps[1..] == Gos(t, n);
  }

  lemma {:induction false} GosConcat(t: TxId, m: nat, n: nat)
    ensures Gos(t, m) + Gos(t, n) == Gos(t, m + n)
  {
    if m == 0 {
      assert [] + Gos(t, n) == Gos(t, n);
    } else {
      GosConcat(t, m - 1, n);
      assert [Go(t)] + Gos(t, m - 1) + Gos(t, n) == [Go(t)] + (Gos(t, m - 1) + Gos(t, n));
    }
  }

  lemma MoreGos(cfg: Config, s: State, t: TxId, m: nat, mid: State, n: nat, end: State)
    requires Reaches(cfg, s, Gos(t, m), mid) && Reaches(cfg, mid, Gos(t, n), end)
    ensures Reaches(cfg, s, Gos(t, m + n), end)
  {
    GosConcat(t, m, n);
    RunConcat(cfg, s, Gos(t, m), Gos(t, n));
  }

  /** One more statement at the end. */
  lemma LastGo(cfg: Config, s: State, t: TxId, m: nat, mid: State, end: State)
    requires Reaches(cfg, s, Gos(t, m), mid) && Apply(cfg, mid, Go(t)) == Some(end)
    ensures Reaches(cfg, s, Gos(t, m + 1), end)
  {
    NoGos(cfg, end, t);
    OneGo(cfg, mid, t, end, 0, end);
    MoreGos(cfg, s, t, m, mid, 1, end);
  }

  /** A chain of states, each one statement after the one before. */
  lemma {:induction false} GosAlong(cfg: Config, t: TxId, states: seq<State>)
    requires states != [] && forall i | 0 <= i < |states| - 1 :: Apply(cfg, states[i], Go(t)) == Some(states[i + 1])
    ensures Reaches(cfg, states[0], Gos(t, |states| - 1), states[|states| - 1])
    decreases |states|
  {
    var n := |states| - 1;
    if n == 0 {
      NoGos(cfg, states[0], t);
    } else {
      GosAlong(cfg, t, states[..n]);
      LastGo(cfg, states[0], t, n - 1, states[n - 1], states[n]);
    }
  }

  /** The transaction has begun. */
  function Begun(s: State, t: TxId, req: Request): State {
    s.(txs := s.txs[t := Tx(req, Start)])
  }

  lemma BeginAndGo(cfg: Config, s: State, t: TxId, req: Request, n: nat, end: State)
    requires t !in s.txs && Reaches(cfg, Begun(s, t, req), Gos(t, n), end)
    ensures Reaches(cfg, s, [Begin(t, req)] + Gos(t, n), end)
  {
    var steps := [Begin(t, req)] + Gos(t, n);
    assert steps[0] == Begin(t, req) && steps[1..] == Gos(t, n);
  }

  lemma AtAgain(s: State, t: TxId, a: Phase, b: Phase)
    requires t in s.txs
    ensures At(At(s, t, a), t, b) == At(s, t, b)
  {
  }

  // ---------------------------------------------------------------- a publish

  /** No other transaction holds anything a publish of these keys needs. */
  ghost predicate PublishUndisturbed(cfg: Config, s: State, t: TxId, role: RoleId, keys: seq<Key>) {
    && RoleFree(s, t, role)
    && (forall k | k in keys :: KeyLockFree(cfg, s, t, cfg.lockId(k)))
    && (forall k | k in keys :: RowFree(s, t, Slot(k, UserScope)))
  }

  lemma LockStep(cfg: Config, s: State, t: TxId, i: nat)
    requires t in s.txs && s.txs[t].req.Publish? && i < |s.txs[t].req.keys|
    requires KeyLockFree(cfg, s, t, cfg.lockId(s.txs[t].req.keys[i]))
    ensures Apply(cfg, At(s, t, Locking(i)), Go(t)) == Some(At(s, t, Locking(i + 1)))
  {
    AtAgain(s, t, Locking(i), Locking(i + 1));
    assert KeyLockFree(cfg, At(s, t, Locking(i)), t, cfg.lockId(s.txs[t].req.keys[i]));
  }

  lemma AllLocksTaken(cfg: Config, s: State, t: TxId)
    requires t in s.txs && s.txs[t].req.Publish?
    requires forall k | k in s.txs[t].req.keys :: KeyLockFree(cfg, s, t, cfg.lockId(k))
    ensures var n := |s.txs[t].req.keys|; Reaches(cfg, At(s, t, Locking(0)), Gos(t, n), At(s, t, Locking(n)))
  {
    var keys := s.txs[t].req.keys;
    var states := seq(|keys| + 1, i requires 0 <= i <= |keys| => At(s, t, Locking(i)));
    forall i | 0 <= i < |keys| ensures Apply(cfg, states[i], Go(t)) == Some(states[i + 1]) {
      assert keys[i] in keys;
      LockStep(cfg, s, t, i);
    }
    GosAlong(cfg, t, states);
  }

  /** One of the first `i` rows is committed as self-editable. */
  predicate OffenderAmong(defs: map<Slot, bool>, rows: seq<Key>, i: nat)
    requires i <= |rows|
  {
    exists j | 0 <= j < i :: SelfEditableNow(defs, rows[j])
  }

  predicate SelfEditableNow(defs: map<Slot, bool>, key: Key) {
    Slot(key, UserScope) in defs && defs[Slot(key, UserScope)]
  }

  lemma ScanStep(cfg: Config, s: State, t: TxId, rows: seq<Key>, i: nat, clean: bool)
    requires t in s.txs && s.txs[t].req.Publish? && i < |rows| && RowFree(s, t, Slot(rows[i], UserScope))
    ensures Apply(cfg, At(s, t, Scanning(rows, i, clean)), Go(t))
      == Some(At(s, t, Scanning(rows, i + 1, clean && !SelfEditableNow(s.defs, rows[i]))))
  {
    var next := Scanning(rows, i + 1, clean && !SelfEditableNow(s.defs, rows[i]));
    AtAgain(s, t, Scanning(rows, i, clean), next);
    assert RowFree(At(s, t, Scanning(rows, i, clean)), t, Slot(rows[i], UserScope));
  }

  lemma ScanEnds(cfg: Config, s: State, t: TxId, rows: seq<Key>, clean: bool)
    requires t in s.txs && s.txs[t].req.Publish?
    ensures Apply(cfg, At(s, t, Scanning(rows, |rows|, clean)), Go(t))
      == Some(At(s, t, if clean then Written(rows) else Aborted))
  {
    AtAgain(s, t, Scanning(rows, |rows|, clean), if clean then Written(rows) else Aborted);
  }

  lemma ScanBegins(cfg: Config, s: State, t: TxId)
    requires t in s.txs && s.txs[t].req.Publish?
    ensures var keys := s.txs[t].req.keys;
      Apply(cfg, At(s, t, Locking(|keys|)), Go(t))
      == Some(At(s, t, if keys == [] then Written([]) else Scanning(RowsSeen(s, s.txs[t].req.byCollation), 0, true)))
  {
    var keys, byCollation := s.txs[t].req.keys, s.txs[t].req.byCollation;
    RowsSeenAt(s, t, Locking(|keys|), byCollation);
    AtAgain(s, t, Locking(|keys|), if keys == [] then Written([]) else Scanning(RowsSeen(s, byCollation), 0, true));
  }

  lemma PublishCommits(cfg: Config, s: State, t: TxId, rows: seq<Key>)
    requires t in s.txs && s.txs[t].req.Publish?
    ensures Apply(cfg, At(s, t, Written(rows)), Go(t))
      == Some(At(s, t, Committed).(live := s.live[s.txs[t].req.role := set k | k in s.txs[t].req.keys]))
  {
    AtAgain(s, t, Written(rows), Committed);
  }

  lemma AllRowsScanned(cfg: Config, s: State, t: TxId, rows: seq<Key>)
    requires t in s.txs && s.txs[t].req.Publish?
    requires forall j | 0 <= j < |rows| :: RowFree(s, t, Slot(rows[j], UserScope))
    ensures Reaches(cfg, At(s, t, Scanning(rows, 0, true)), Gos(t, |rows|),
      At(s, t, Scanning(rows, |rows|, !OffenderAmong(s.defs, rows, |rows|))))
  {
    var states := seq(|rows| + 1, i requires 0 <= i <= |rows| =>
      At(s, t, Scanning(rows, i, !OffenderAmong(s.defs, rows, i))));
    forall i | 0 <= i < |rows| ensures Apply(cfg, states[i], Go(t)) == Some(states[i + 1]) {
      ScanStep(cfg, s, t, rows, i, !OffenderAmong(s.defs, rows, i));
    }
    GosAlong(cfg, t, states);
  }

  lemma {:induction false} RowsSeenAt(s: State, t: TxId, phase: Phase, keys: seq<Key>)
    requires t in s.txs
    ensures RowsSeen(At(s, t, phase), keys) == RowsSeen(s, keys)
  {
    if keys != [] {
      RowsSeenAt(s, t, phase, keys[1..]);
    }
  }

  /** Some committed user-scoped definition of one of the keys is self-editable. */
  ghost predicate NamesSelfEditable(defs: map<Slot, bool>, keys: seq<Key>) {
    exists k :: k in keys && Slot(k, UserScope) in defs && defs[Slot(k, UserScope)]
  }

  lemma OffendersAreNamed(s: State, keys: seq<Key>, byCollation: seq<Key>)
    requires forall k :: k in keys <==> k in byCollation
    ensures OffenderAmong(s.defs, RowsSeen(s, byCollation), |RowsSeen(s, byCollation)|) <==> NamesSelfEditable(s.defs, keys)
  {
    var rows := RowsSeen(s, byCollation);
    if k :| k in keys && Slot(k, UserScope) in s.defs && s.defs[Slot(k, UserScope)] {
      assert k in rows;
      var j :| 0 <= j < |rows| && rows[j] == k;
      assert SelfEditableNow(s.defs, rows[j]);
    }
    if OffenderAmong(s.defs, rows, |rows|) {
      var j :| 0 <= j < |rows| && SelfEditableNow(s.defs, rows[j]);
      assert rows[j] in rows;
    }
  }

  /** What the publish leaves. */
  ghost predicate PublishLeaves(s: State, t: TxId, role: RoleId, keys: seq<Key>, byCollation: seq<Key>, end: State) {
    && end.defs == s.defs && end.txs.Keys == s.txs.Keys + {t}
    && (forall u | u in s.txs && u != t :: end.txs[u] == s.txs[u])
    && end.txs[t].req == Publish(role, keys, byCollation)
    && (if NamesSelfEditable(s.defs, keys) then end.txs[t].phase == Aborted && end.live == s.live
        else
          && end.txs[t].phase == Committed && role in end.live && (forall k :: k in end.live[role] <==> k in keys)
          && end.live.Keys == s.live.Keys + {role} && (forall r | r in s.live && r != role :: end.live[r] == s.live[r]))
  }

  /** Where a publish of these keys ends. */
  ghost function PublishEnd(s: State, t: TxId): State
    requires t in s.txs && s.txs[t].req.Publish?
  {
    var req := s.txs[t].req;
    if NamesSelfEditable(s.defs, req.keys) then At(s, t, Aborted)
    else At(s, t, Committed).(live := s.live[req.role := set k | k in req.keys])
  }

  lemma PublishEnds(
    cfg: Config, s: State, t: TxId, role: RoleId, keys: seq<Key>, byCollation: seq<Key>) returns (n: nat)
    requires t in s.txs && s.txs[t] == Tx(Publish(role, keys, byCollation), Start)
    requires PublishUndisturbed(cfg, s, t, role, keys) && forall k :: k in keys <==> k in byCollation
    ensures Reaches(cfg, s, Gos(t, n), PublishEnd(s, t))
  {
    var locked := PublishLocks(cfg, s, t, role, keys, byCollation);
    var m: nat, gated, decided;
    m, gated, decided := PublishDecides(cfg, s, t, role, keys, byCollation);
    MoreGos(cfg, s, t, 1 + |keys|, locked, m, gated);
    n := 1 + |keys| + m;
    if decided {
      var rows :| gated == At(s, t, Written(rows));
      PublishCommits(cfg, s, t, rows);
      LastGo(cfg, s, t, n, gated, PublishEnd(s, t));
      n := n + 1;
    }
  }

  lemma PublishLocks(
    cfg: Config, s: State, t: TxId, role: RoleId, keys: seq<Key>, byCollation: seq<Key>) returns (locked: State)
    requires t in s.txs && s.txs[t] == Tx(Publish(role, keys, byCollation), Start)
    requires PublishUndisturbed(cfg, s, t, role, keys)
    ensures locked == At(s, t, Locking(|keys|)) && Reaches(cfg, s, Gos(t, 1 + |keys|), locked)
  {
    locked := At(s, t, Locking(|keys|));
    AllLocksTaken(cfg, s, t);
    OneGo(cfg, s, t, At(s, t, Locking(0)), |keys|, locked);
  }

  /** With all advisory locks held, the scan decides. */
  lemma PublishDecides(
    cfg: Config, s: State, t: TxId, role: RoleId, keys: seq<Key>, byCollation: seq<Key>)
    returns (m: nat, gated: State, decided: bool)
    requires t in s.txs && s.txs[t].req == Publish(role, keys, byCollation)
    requires PublishUndisturbed(cfg, s, t, role, keys) && forall k :: k in keys <==> k in byCollation
    ensures Reaches(cfg, At(s, t, Locking(|keys|)), Gos(t, m), gated)
    ensures decided <==> !NamesSelfEditable(s.defs, keys)
    ensures if decided then exists rows :: gated == At(s, t, Written(rows)) else gated == At(s, t, Aborted)
  {
    var locked := At(s, t, Locking(|keys|));
    ScanBegins(cfg, s, t);
    if keys == [] {
      gated, decided, m := At(s, t, Written([])), true, 1;
      NoGos(cfg, gated, t);
      OneGo(cfg, locked, t, gated, 0, gated);
    } else {
      var rows := RowsSeen(s, byCollation);
      OffendersAreNamed(s, keys, byCollation);
      decided := !OffenderAmong(s.defs, rows, |rows|);
      gated := ScanDecides(cfg, s, t, role, keys, byCollation, rows);
      OneGo(cfg, locked, t, At(s, t, Scanning(rows, 0, true)), |rows| + 1, gated);
      m := |rows| + 2;
    }
  }

  lemma ScanDecides(
    cfg: Config, s: State, t: TxId, role: RoleId, keys: seq<Key>, byCollation: seq<Key>, rows: seq<Key>)
    returns (gated: State)
    requires t in s.txs && s.txs[t].req == Publish(role, keys, byCollation)
    requires PublishUndisturbed(cfg, s, t, role, keys) && forall k | k in rows :: k in keys
    ensures Reaches(cfg, At(s, t, Scanning(rows, 0, true)), Gos(t, |rows| + 1), gated)
    ensures gated == At(s, t, if OffenderAmong(s.defs, rows, |rows|) then Aborted else Written(rows))
  {
    var clean := !OffenderAmong(s.defs, rows, |rows|);
    forall j | 0 <= j < |rows| ensures RowFree(s, t, Slot(rows[j], UserScope)) {
      assert rows[j] in rows;
    }
    AllRowsScanned(cfg, s, t, rows);
    ScanEnds(cfg, s, t, rows, clean);
    gated := At(s, t, if clean then Written(rows) else Aborted);
    LastGo(cfg, At(s, t, Scanning(rows, 0, true)), t, |rows|, At(s, t, Scanning(rows, |rows|, clean)), gated);
  }

  /** From any state, a publish whose locks are free, left alone, ends: it commits, with its draft's keys as
      the live formula, exactly when no committed user-scoped definition of one of its keys is self-editable.
      Otherwise it aborts. Nothing else changes. */
  lemma UndisturbedPublish(cfg: Config, s: State, t: TxId, role: RoleId, keys: seq<Key>, byCollation: seq<Key>)
    returns (n: nat, end: State)
    requires t !in s.txs && WellFormed(cfg, Publish(role, keys, byCollation))
    requires PublishUndisturbed(cfg, s, t, role, keys)
    ensures Run(cfg, s, [Begin(t, Publish(role, keys, byCollation))] + Gos(t, n)) == Some(end)
    ensures t in end.txs && PublishLeaves(s, t, role, keys, byCollation, end)
    ensures end.txs[t].phase == Committed <==>
      forall k | k in keys && Slot(k, UserScope) in s.defs :: !s.defs[Slot(k, UserScope)]
  {
    var begun := Begun(s, t, Publish(role, keys, byCollation));
    n := PublishEnds(cfg, begun, t, role, keys, byCollation);
    end := PublishEnd(begun, t);
    BeginAndGo(cfg, s, t, Publish(role, keys, byCollation), n, end);
  }

  // ---------------------------------------------------------------- a create

  /** Some live formula reads this user attribute. */
  ghost predicate ReadByFormula(live: map<RoleId, set<Key>>, slot: Slot) {
    slot.scope == UserScope && exists r :: r in live && slot.key in live[r]
  }

  /** From any state, a create whose locks are free, left alone, commits exactly when there is no definition
      of that key and scope and, if it is to be self-editable, no live formula reads it. Otherwise it aborts.
      Nothing else changes. */
  lemma UndisturbedCreate(cfg: Config, s: State, t: TxId, slot: Slot, selfEditable: bool) returns (n: nat, end: State)
    requires t !in s.txs && KeyLockFree(cfg, s, t, cfg.lockId(slot.key)) && InsertFree(s, t, slot)
    ensures Run(cfg, s, [Begin(t, Create(slot, selfEditable))] + Gos(t, n)) == Some(end)
    ensures end.live == s.live && end.txs.Keys == s.txs.Keys + {t} && forall u | u in s.txs :: end.txs[u] == s.txs[u]
    ensures var refused := slot in s.defs || (selfEditable && ReadByFormula(s.live, slot));
      && end.txs[t].phase == (if refused then Aborted else Committed)
      && end.defs == if refused then s.defs else s.defs[slot := selfEditable]
  {
    var req := Create(slot, selfEditable);
    var begun := Begun(s, t, req);
    if TakesKeyLock(cfg, req) {
      var m;
      m, end := CreateFromLock(cfg, begun, t, slot, selfEditable);
      AtAgain(begun, t, Start, KeyLocked);
      OneGo(cfg, begun, t, At(begun, t, KeyLocked), m, end);
      n := m + 1;
    } else {
      var m;
      m, end := CreateFromCheck(cfg, begun, t, slot, selfEditable);
      OneGo(cfg, begun, t, At(begun, t, Checked), m, end);
      n := m + 1;
    }
    BeginAndGo(cfg, s, t, req, n, end);
  }

  lemma CreateFromLock(cfg: Config, s: State, t: TxId, slot: Slot, selfEditable: bool) returns (n: nat, end: State)
    requires t in s.txs && s.txs[t].req == Create(slot, selfEditable) && InsertFree(s, t, slot)
    ensures Reaches(cfg, At(s, t, KeyLocked), Gos(t, n), end)
    ensures var refused := slot in s.defs || (selfEditable && ReadByFormula(s.live, slot));
      end == if refused then At(s, t, Aborted) else At(s, t, Committed).(defs := s.defs[slot := selfEditable])
  {
    var locked := At(s, t, KeyLocked);
    if selfEditable && ReadByFormula(s.live, slot) {
      end, n := At(s, t, Aborted), 1;
      AtAgain(s, t, KeyLocked, Aborted);
      NoGos(cfg, end, t);
      OneGo(cfg, locked, t, end, 0, end);
    } else {
      var m;
      m, end := CreateFromCheck(cfg, s, t, slot, selfEditable);
      AtAgain(s, t, KeyLocked, Checked);
      OneGo(cfg, locked, t, At(s, t, Checked), m, end);
      n := m + 1;
    }
  }

  lemma CreateFromCheck(cfg: Config, s: State, t: TxId, slot: Slot, selfEditable: bool) returns (n: nat, end: State)
    requires t in s.txs && s.txs[t].req == Create(slot, selfEditable) && InsertFree(s, t, slot)
    ensures Reaches(cfg, At(s, t, Checked), Gos(t, n), end)
    ensures end == if slot in s.defs then At(s, t, Aborted) else At(s, t, Committed).(defs := s.defs[slot := selfEditable])
  {
    var checked := At(s, t, Checked);
    if slot in s.defs {
      end, n := At(s, t, Aborted), 1;
      AtAgain(s, t, Checked, Aborted);
      NoGos(cfg, end, t);
      OneGo(cfg, checked, t, end, 0, end);
    } else {
      var inserted := At(s, t, Inserted);
      end, n := At(s, t, Committed).(defs := s.defs[slot := selfEditable]), 2;
      AtAgain(s, t, Checked, Inserted);
      AtAgain(s, t, Inserted, Committed);
      NoGos(cfg, end, t);
      OneGo(cfg, inserted, t, end, 0, end);
      OneGo(cfg, checked, t, inserted, 1, end);
    }
  }

  // ---------------------------------------------------------------- an update

  /** From any state, an update whose row is free, left alone, commits exactly when the definition exists and,
      if it is to become self-editable, no live formula reads it; it changes the flag only if the patch says
      so. Otherwise it aborts. Nothing else changes. */
  lemma UndisturbedUpdate(cfg: Config, s: State, t: TxId, slot: Slot, patch: Option<bool>) returns (n: nat, end: State)
    requires t !in s.txs && RowFree(s, t, slot)
    ensures Run(cfg, s, [Begin(t, Update(slot, patch))] + Gos(t, n)) == Some(end)
    ensures end.live == s.live && end.txs.Keys == s.txs.Keys + {t} && forall u | u in s.txs :: end.txs[u] == s.txs[u]
    ensures var refused := slot !in s.defs || (patch == Some(true) && ReadByFormula(s.live, slot));
      && end.txs[t].phase == (if refused then Aborted else Committed)
      && end.defs == if refused || patch == None then s.defs else s.defs[slot := patch.value]
  {
    var req := Update(slot, patch);
    var begun := Begun(s, t, req);
    if slot !in s.defs {
      end, n := At(begun, t, Aborted), 1;
      NoGos(cfg, end, t);
      OneGo(cfg, begun, t, end, 0, end);
    } else {
      var m;
      m, end := UpdateFromLock(cfg, begun, t, slot, patch);
      OneGo(cfg, begun, t, At(begun, t, RowLocked), m, end);
      n := m + 1;
    }
    BeginAndGo(cfg, s, t, req, n, end);
  }

  lemma UpdateFromLock(cfg: Config, s: State, t: TxId, slot: Slot, patch: Option<bool>) returns (n: nat, end: State)
    requires t in s.txs && s.txs[t].req == Update(slot, patch)
    ensures Reaches(cfg, At(s, t, RowLocked), Gos(t, n), end)
    ensures end == if patch == Some(true) && ReadByFormula(s.live, slot) then At(s, t, Aborted)
                   else At(s, t, Committed).(defs := if patch.Some? then s.defs[slot := patch.value] else s.defs)
  {
    var locked := At(s, t, RowLocked);
    if patch == Some(true) && ReadByFormula(s.live, slot) {
      end, n := At(s, t, Aborted), 1;
      AtAgain(s, t, RowLocked, Aborted);
      NoGos(cfg, end, t);
      OneGo(cfg, locked, t, end, 0, end);
    } else {
      var patched := At(s, t, Patched);
      end, n := At(s, t, Committed).(defs := if patch.Some? then s.defs[slot := patch.value] else s.defs), 2;
      AtAgain(s, t, RowLocked, Patched);
      AtAgain(s, t, Patched, Committed);
      NoGos(cfg, end, t);
      OneGo(cfg, patched, t, end, 0, end);
      OneGo(cfg, locked, t, patched, 1, end);
    }
  }

  // ---------------------------------------------------------------- rolled back, and inserted twice

  /** A transaction that is rolled back has aborted and has changed nothing. */
  lemma RollbackMeaning(cfg: Config, s: State, t: TxId)
    requires Apply(cfg, s, Rollback(t)).Some?
    ensures var end := Apply(cfg, s, Rollback(t)).value;
      && end.defs == s.defs && end.live == s.live && end.txs.Keys == s.txs.Keys && end.txs[t].phase == Aborted
      && forall u | u in s.txs && u != t :: end.txs[u] == s.txs[u]
  {
  }

  /** Two transactions have inserted the same key and scope. */
  ghost predicate InsertedTwice(s: State, t: TxId, u: TxId) {
    && t in s.txs && u in s.txs && t != u && s.txs[t].req.Create? && s.txs[u].req.Create?
    && s.txs[t].phase.Inserted? && s.txs[u].phase.Inserted? && s.txs[t].req.slot == s.txs[u].req.slot
  }

  /** An insert that is open is of a definition that does not exist, and is the only one of it; an update
      under way is of a definition that does. */
  ghost predicate InsertsAreNew(s: State) {
    && (forall t | t in s.txs && s.txs[t].req.Create? && s.txs[t].phase.Inserted? :: s.txs[t].req.slot !in s.defs)
    && (forall t | t in s.txs && s.txs[t].req.Update? && (s.txs[t].phase.RowLocked? || s.txs[t].phase.Patched?) ::
          s.txs[t].req.slot in s.defs)
    && (forall t, u :: !InsertedTwice(s, t, u))
  }

  /** A committing create is alone with its insert, so no other open insert loses its absence. */
  lemma CommitKeepsAbsence(cfg: Config, s: State, t: TxId, u: TxId)
    requires InsertsAreNew(s) && t in s.txs && !Finished(s.txs[t]) && Advance(cfg, s, t).Some?
    requires u in s.txs && u != t && s.txs[u].req.Create? && s.txs[u].phase.Inserted?
    ensures s.txs[u].req.slot !in Advance(cfg, s, t).value.defs
  {
    assert !InsertedTwice(s, t, u);
  }

  lemma GoKeepsInserts(cfg: Config, s: State, t: TxId)
    requires InsertsAreNew(s) && t in s.txs && !Finished(s.txs[t]) && Advance(cfg, s, t).Some?
    ensures InsertsAreNew(Advance(cfg, s, t).value)
  {
    var s' := Advance(cfg, s, t).value;
    forall u | u in s'.txs && s'.txs[u].req.Create? && s'.txs[u].phase.Inserted?
      ensures s'.txs[u].req.slot !in s'.defs
    {
      if u != t {
        CommitKeepsAbsence(cfg, s, t, u);
      }
    }
    forall u, v ensures !InsertedTwice(s', u, v) {
      assert !InsertedTwice(s, u, v);
    }
  }

  lemma StepKeepsInserts(cfg: Config, s: State, step: Step)
    requires InsertsAreNew(s) && Apply(cfg, s, step).Some?
    ensures InsertsAreNew(Apply(cfg, s, step).value)
  {
    var s' := Apply(cfg, s, step).value;
    if step.Go? {
      GoKeepsInserts(cfg, s, step.t);
    } else {
      forall u, v ensures !InsertedTwice(s', u, v) {
        assert !InsertedTwice(s, u, v);
      }
    }
  }

  /** Over every run no definition is inserted over another: while an insert is open its definition does not
      exist, and no second one of it is open. */
  lemma {:induction false} NothingIsInsertedTwice(cfg: Config, s: State, steps: seq<Step>)
    requires InsertsAreNew(s) && Run(cfg, s, steps).Some?
    ensures InsertsAreNew(Run(cfg, s, steps).value)
    decreases |steps|
  {
    if steps != [] {
      StepKeepsInserts(cfg, s, steps[0]);
      NothingIsInsertedTwice(cfg, Apply(cfg, s, steps[0]).value, steps[1..]);
    }
  }
}
